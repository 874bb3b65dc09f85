/** The Informatica lineage builder: the field-level connection graph of a
    mapping, the depth-first trace from a target field back through the
    transformations, the breadth-first search for the source column behind
    a port, and the column lineage edges built from the traced chains. */
module InfaLineage {
  import opened Basics
  import opened Text
  import opened OrderedMap
  import opened InfaModel
  import opened InfaSql

  /** `graph[to_instance][to_field]` lists the ports that feed that field. */
  type InstanceGraph = OMap<string, OMap<string, seq<Port>>>

  /** The ports that connectors feed into `(inst, field)`, in connector order. */
  function Feeds(cs: seq<Connector>, inst: string, field: string): (r: seq<Port>)
    decreases |cs|
  {
    if cs == [] then []
    else
      var c := cs[|cs| - 1];
      var before := Feeds(cs[..|cs| - 1], inst, field);
      if c.toInstance == inst && c.toField == field then before + [(c.fromInstance, c.fromField)] else before
  }

  /** Connector `i` carries `p` into `(inst, field)`. */
  predicate Carries(cs: seq<Connector>, i: int, inst: string, field: string, p: Port) {
    0 <= i < |cs| && cs[i].toInstance == inst && cs[i].toField == field && p == (cs[i].fromInstance, cs[i].fromField)
  }

  /** The feeding ports are exactly those some connector carries into the field. */
  lemma {:induction false} FeedsSpec(cs: seq<Connector>, inst: string, field: string)
    ensures forall p :: p in Feeds(cs, inst, field) <==> exists i :: Carries(cs, i, inst, field, p)
    decreases |cs|
  {
    if cs != [] {
      var n := |cs| - 1;
      var pre := cs[..n];
      FeedsSpec(pre, inst, field);
      var c := cs[n];
      var added: seq<Port> := if c.toInstance == inst && c.toField == field then [(c.fromInstance, c.fromField)] else [];
      assert Feeds(cs, inst, field) == Feeds(pre, inst, field) + added;
      forall p ensures p in Feeds(cs, inst, field) <==> exists i :: Carries(cs, i, inst, field, p) {
        if p in Feeds(pre, inst, field) {
          var i :| Carries(pre, i, inst, field, p);
          assert Carries(cs, i, inst, field, p);
        } else if p in added {
          assert Carries(cs, n, inst, field, p);
        }
        if exists i :: Carries(cs, i, inst, field, p) {
          var i :| Carries(cs, i, inst, field, p);
          if i < n {
            assert Carries(pre, i, inst, field, p);
          } else {
            assert p in added;
          }
        }
      }
    }
  }

  function AddConnector(g: InstanceGraph, c: Connector): InstanceGraph {
    Put(g, c.toInstance, Append(GetOr(g, c.toInstance, []), c.toField, (c.fromInstance, c.fromField)))
  }

  /** The connection graph of a mapping, one connector at a time. */
  function BuildInstanceGraph(cs: seq<Connector>): InstanceGraph
    decreases |cs|
  {
    if cs == [] then [] else AddConnector(BuildInstanceGraph(cs[..|cs| - 1]), cs[|cs| - 1])
  }

  function GraphLookup(g: InstanceGraph, inst: string, field: string): seq<Port> {
    GetOr(GetOr(g, inst, []), field, [])
  }

  /** Looking a field up in the graph gives exactly the ports connected into
      it, in connector order. */
  lemma {:induction false} InstanceGraphLookup(cs: seq<Connector>, inst: string, field: string)
    ensures GraphLookup(BuildInstanceGraph(cs), inst, field) == Feeds(cs, inst, field)
    decreases |cs|
  {
    if cs != [] {
      var n := |cs| - 1;
      var c := cs[n];
      var g := BuildInstanceGraph(cs[..n]);
      var inner := GetOr(g, c.toInstance, []);
      var entry := (c.fromInstance, c.fromField);
      InstanceGraphLookup(cs[..n], inst, field);
      PutGet(g, c.toInstance, Append(inner, c.toField, entry), inst);
      PutGet(inner, c.toField, GetOr(inner, c.toField, []) + [entry], field);
    }
  }

  /** The ports feeding a port of a mapping. */
  function Inputs(m: Mapping, port: Port): (r: seq<Port>)
    ensures r == Feeds(m.connectors, port.0, port.1)
  {
    InstanceGraphLookup(m.connectors, port.0, port.1);
    GraphLookup(BuildInstanceGraph(m.connectors), port.0, port.1)
  }

  /** The visit keys of every port some connector reads from. */
  function FedKeys(m: Mapping): set<string> {
    set i | 0 <= i < |m.connectors| :: VisitKey(m.connectors[i].fromInstance, m.connectors[i].fromField)
  }

  lemma InputsFed(m: Mapping, port: Port)
    ensures forall k :: 0 <= k < |Inputs(m, port)| ==> VisitKey(Inputs(m, port)[k].0, Inputs(m, port)[k].1) in FedKeys(m)
  {
    var r := Inputs(m, port);
    FeedsSpec(m.connectors, port.0, port.1);
    forall k | 0 <= k < |r|
      ensures VisitKey(r[k].0, r[k].1) in FedKeys(m)
    {
      assert r[k] in r;
      var i :| Carries(m.connectors, i, port.0, port.1, r[k]);
    }
  }

  /** The expression of a field of an instance's transformation, if any. */
  function FieldExpression(m: Mapping, f: Folder, inst: InstanceInfo, field: string): Option<string> {
    match GetTransformation(m, f, inst)
    case None => None
    case Some(t) =>
      match Get(t.fields, field)
      case None => None
      case Some(fi) => fi.expression
  }

  /** The steps found so far and the visit keys used up. */
  datatype TraceResult = TraceResult(steps: seq<Step>, visited: set<string>)

  function KeyOf(p: Port): string {
    VisitKey(p.0, p.1)
  }

  /** The depth-first trace from one port: nothing if its key was visited
      already; otherwise the key is marked, and a port of a known instance
      yields its own step followed by the traces of its inputs. */
  function TraceNode(m: Mapping, f: Folder, port: Port, order: nat, visited: set<string>): (r: TraceResult)
    ensures visited <= r.visited
    decreases |FedKeys(m) - visited|, if KeyOf(port) in FedKeys(m) then 0 else 1, 0
  {
    var key := KeyOf(port);
    if key in visited then TraceResult([], visited)
    else
      var seen := visited + {key};
      match Get(m.instances, port.0)
      case None => TraceResult([], seen)
      case Some(inst) =>
        var inputs := Inputs(m, port);
        var step := Step(order, port.0, inst.kind, inputs, [port], FieldExpression(m, f, inst, port.1));
        InputsFed(m, port);
        RemainderShrinks(FedKeys(m), visited, seen);
        assert key in FedKeys(m) ==> |FedKeys(m) - seen| < |FedKeys(m) - visited| by {
          if key in FedKeys(m) {
            assert FedKeys(m) - seen == (FedKeys(m) - visited) - {key};
          }
        }
        var rest := TraceInputs(m, f, inputs, order + 1, seen);
        TraceResult([step] + rest.steps, rest.visited)
  }

  /** The traces of several inputs in turn, sharing the visited keys. */
  function TraceInputs(m: Mapping, f: Folder, ports: seq<Port>, order: nat, visited: set<string>): (r: TraceResult)
    requires forall k :: 0 <= k < |ports| ==> KeyOf(ports[k]) in FedKeys(m)
    ensures visited <= r.visited
    decreases |FedKeys(m) - visited|, 0, |ports|
  {
    if ports == [] then TraceResult([], visited)
    else
      var first := TraceNode(m, f, ports[0], order, visited);
      RemainderShrinks(FedKeys(m), visited, first.visited);
      var rest := TraceInputs(m, f, ports[1..], order, first.visited);
      TraceResult(first.steps + rest.steps, rest.visited)
  }

  /** The transformation chain behind a target field, in the order the
      recursive walk meets it. */
  function TraceFieldLineage(m: Mapping, f: Folder, inst: string, field: string): seq<Step> {
    TraceNode(m, f, (inst, field), 0, {}).steps
  }

  /** The port a step was made for. */
  function Out(s: Step): Port {
    if s.outputs == [] then ("", "") else s.outputs[0]
  }

  /** A step describes its own port as the mapping defines it: the
      instance exists, and kind, inputs and expression are read from it. */
  predicate Faithful(m: Mapping, f: Folder, s: Step) {
    s.outputs == [Out(s)] && s.instanceName == Out(s).0 &&
    match Get(m.instances, s.instanceName)
    case None => false
    case Some(inst) =>
      s.kind == inst.kind && s.inputs == Inputs(m, Out(s)) && s.expression == FieldExpression(m, f, inst, Out(s).1)
  }

  /** Step `j` was reached from an earlier step that lists its port among
      its inputs, one level further up. */
  predicate HasParent(steps: seq<Step>, j: int) {
    0 <= j < |steps| &&
    exists i :: 0 <= i < j && Out(steps[j]) in steps[i].inputs && steps[j].stepOrder == steps[i].stepOrder + 1
  }

  /** Every step of a trace describes its port faithfully. */
  predicate AllFaithful(m: Mapping, f: Folder, steps: seq<Step>) {
    forall s :: s in steps ==> Faithful(m, f, s)
  }

  /** The steps' keys were unvisited before the trace and visited after it. */
  predicate KeysFresh(steps: seq<Step>, before: set<string>, after: set<string>) {
    forall s :: s in steps ==> KeyOf(Out(s)) in after - before
  }

  /** No two steps share a visit key. */
  predicate KeysDistinct(steps: seq<Step>) {
    forall i, j :: 0 <= i < j < |steps| ==> KeyOf(Out(steps[i])) != KeyOf(Out(steps[j]))
  }

  /** Every input of every step has been visited. */
  predicate InputsVisited(steps: seq<Step>, after: set<string>) {
    forall s, q :: s in steps && q in s.inputs ==> KeyOf(q) in after
  }

  /** The facts the trace keeps about its steps, relative to the keys
      visited before it started and after it ended. */
  predicate TraceInvariant(m: Mapping, f: Folder, steps: seq<Step>, before: set<string>, after: set<string>, order: nat) {
    AllFaithful(m, f, steps) && KeysFresh(steps, before, after) && KeysDistinct(steps) &&
    (forall s :: s in steps ==> s.stepOrder >= order) && InputsVisited(steps, after)
  }

  lemma ParentShift(a: seq<Step>, b: seq<Step>, j: int)
    requires HasParent(b, j)
    ensures HasParent(a + b, |a| + j)
  {
    var i :| 0 <= i < j && Out(b[j]) in b[i].inputs && b[j].stepOrder == b[i].stepOrder + 1;
    assert (a + b)[|a| + i] == b[i];
  }

  lemma ParentKeep(a: seq<Step>, b: seq<Step>, j: int)
    requires HasParent(a, j)
    ensures HasParent(a + b, j)
  {
    var i :| 0 <= i < j && Out(a[j]) in a[i].inputs && a[j].stepOrder == a[i].stepOrder + 1;
    assert (a + b)[i] == a[i];
  }

  /** Two traces run one after the other keep the invariant together. */
  lemma InvariantAppend(m: Mapping, f: Folder, a: seq<Step>, b: seq<Step>, v0: set<string>, v1: set<string>, v2: set<string>, order: nat)
    requires v0 <= v1 <= v2
    requires TraceInvariant(m, f, a, v0, v1, order)
    requires TraceInvariant(m, f, b, v1, v2, order)
    ensures TraceInvariant(m, f, a + b, v0, v2, order)
  {
    var c := a + b;
    assert KeysDistinct(c) by {
      forall i, j | 0 <= i < j < |c|
        ensures KeyOf(Out(c[i])) != KeyOf(Out(c[j]))
      {
        if j < |a| {
          assert c[i] == a[i] && c[j] == a[j];
        } else if i >= |a| {
          assert c[i] == b[i - |a|] && c[j] == b[j - |a|];
        } else {
          assert c[i] == a[i] && c[j] == b[j - |a|];
          assert a[i] in a && b[j - |a|] in b;
        }
      }
    }
  }

  /** What the trace from one port promises: its steps are faithful, each
      key appears once and only if it was not visited before, the first
      step is the port itself at the given order, every later step hangs
      below an earlier one, and every input of a step has been visited. */
  lemma {:induction false} TraceNodeSpec(m: Mapping, f: Folder, port: Port, order: nat, visited: set<string>)
    ensures var r := TraceNode(m, f, port, order, visited);
      TraceInvariant(m, f, r.steps, visited, r.visited, order) &&
      KeyOf(port) in r.visited &&
      (r.steps != [] <==> KeyOf(port) !in visited && port.0 in Keys(m.instances)) &&
      (r.steps != [] ==> Out(r.steps[0]) == port && r.steps[0].stepOrder == order) &&
      (forall j :: 0 < j < |r.steps| ==> HasParent(r.steps, j))
    decreases |FedKeys(m) - visited|, if KeyOf(port) in FedKeys(m) then 0 else 1, 0
  {
    var key := KeyOf(port);
    if key !in visited {
      var seen := visited + {key};
      match Get(m.instances, port.0)
      case None =>
      case Some(inst) =>
        var inputs := Inputs(m, port);
        var step := Step(order, port.0, inst.kind, inputs, [port], FieldExpression(m, f, inst, port.1));
        InputsFed(m, port);
        RemainderShrinks(FedKeys(m), visited, seen);
        assert key in FedKeys(m) ==> |FedKeys(m) - seen| < |FedKeys(m) - visited| by {
          if key in FedKeys(m) {
            assert FedKeys(m) - seen == (FedKeys(m) - visited) - {key};
          }
        }
        var rest := TraceInputs(m, f, inputs, order + 1, seen);
        TraceInputsSpec(m, f, inputs, order + 1, seen);
        forall q | q in inputs ensures KeyOf(q) in rest.visited {
          var k :| 0 <= k < |inputs| && inputs[k] == q;
        }
        var steps := [step] + rest.steps;
        assert TraceNode(m, f, port, order, visited) == TraceResult(steps, rest.visited);
        assert Faithful(m, f, step);
        NodeInvariant(m, f, step, rest.steps, visited, seen, rest.visited, order);
        NodeParents(step, rest.steps, order);
    }
  }

  /** A step for a fresh key followed by the traces of its inputs keeps
      the invariant. */
  lemma NodeInvariant(m: Mapping, f: Folder, step: Step, rest: seq<Step>, v0: set<string>, v1: set<string>, v2: set<string>, order: nat)
    requires Faithful(m, f, step) && step.stepOrder == order
    requires v1 == v0 + {KeyOf(Out(step))} && KeyOf(Out(step)) !in v0 && v1 <= v2
    requires forall q :: q in step.inputs ==> KeyOf(q) in v2
    requires TraceInvariant(m, f, rest, v1, v2, order + 1)
    ensures TraceInvariant(m, f, [step] + rest, v0, v2, order)
  {
    var c := [step] + rest;
    assert forall s :: s in c <==> s == step || s in rest;
    ConsKeysDistinct(step, rest);
  }

  /** A step whose key no later step shares keeps the keys distinct. */
  lemma ConsKeysDistinct(step: Step, rest: seq<Step>)
    requires KeysDistinct(rest)
    requires forall s :: s in rest ==> KeyOf(Out(s)) != KeyOf(Out(step))
    ensures KeysDistinct([step] + rest)
  {
    var c := [step] + rest;
    forall i, j | 0 <= i < j < |c|
      ensures KeyOf(Out(c[i])) != KeyOf(Out(c[j]))
    {
      assert c[j] == rest[j - 1] && rest[j - 1] in rest;
      if i > 0 {
        assert c[i] == rest[i - 1];
      }
    }
  }

  /** A step followed by the traces of its inputs at the next order: every
      step after the first hangs below an earlier one. */
  lemma NodeParents(step: Step, rest: seq<Step>, order: nat)
    requires step.stepOrder == order
    requires forall j :: 0 <= j < |rest| ==> (rest[j].stepOrder == order + 1 && Out(rest[j]) in step.inputs) || HasParent(rest, j)
    ensures forall j :: 0 < j < |[step] + rest| ==> HasParent([step] + rest, j)
  {
    var steps := [step] + rest;
    forall j | 0 < j < |steps|
      ensures HasParent(steps, j)
    {
      var k := j - 1;
      assert steps[j] == rest[k];
      if HasParent(rest, k) {
        ParentShift([step], rest, k);
      } else {
        assert steps[0] == step;
      }
    }
  }

  /** What the traces of several inputs promise together: the invariant,
      every port's key visited, and every step either the trace root of
      one of the ports, at the given order, or hung below an earlier step. */
  lemma {:induction false} TraceInputsSpec(m: Mapping, f: Folder, ports: seq<Port>, order: nat, visited: set<string>)
    requires forall k :: 0 <= k < |ports| ==> KeyOf(ports[k]) in FedKeys(m)
    ensures var r := TraceInputs(m, f, ports, order, visited);
      TraceInvariant(m, f, r.steps, visited, r.visited, order) &&
      (forall k :: 0 <= k < |ports| ==> KeyOf(ports[k]) in r.visited) &&
      (forall j :: 0 <= j < |r.steps| ==> (r.steps[j].stepOrder == order && Out(r.steps[j]) in ports) || HasParent(r.steps, j))
    decreases |FedKeys(m) - visited|, 0, |ports|
  {
    if ports != [] {
      var first := TraceNode(m, f, ports[0], order, visited);
      TraceNodeSpec(m, f, ports[0], order, visited);
      RemainderShrinks(FedKeys(m), visited, first.visited);
      var rest := TraceInputs(m, f, ports[1..], order, first.visited);
      TraceInputsSpec(m, f, ports[1..], order, first.visited);
      var steps := first.steps + rest.steps;
      InvariantAppend(m, f, first.steps, rest.steps, visited, first.visited, rest.visited, order);
      forall k | 0 <= k < |ports|
        ensures KeyOf(ports[k]) in rest.visited
      {
        if k > 0 {
          assert ports[k] == ports[1..][k - 1];
        }
      }
      forall j | 0 <= j < |steps|
        ensures (steps[j].stepOrder == order && Out(steps[j]) in ports) || HasParent(steps, j)
      {
        if j < |first.steps| {
          assert steps[j] == first.steps[j];
          if j > 0 {
            ParentKeep(first.steps, rest.steps, j);
          }
        } else {
          var k := j - |first.steps|;
          assert steps[j] == rest.steps[k];
          if HasParent(rest.steps, k) {
            ParentShift(first.steps, rest.steps, k);
          } else {
            assert Out(rest.steps[k]) in ports[1..];
          }
        }
      }
    }
  }

  /** The chain behind a target field: empty exactly when the target
      instance is unknown; otherwise it opens with the target port at order
      0, has one step per visit key, and every later step feeds an earlier
      one and sits one level below it. */
  lemma TraceFieldLineageSpec(m: Mapping, f: Folder, inst: string, field: string)
    ensures var steps := TraceFieldLineage(m, f, inst, field);
      (steps == [] <==> inst !in Keys(m.instances)) &&
      (steps != [] ==> Out(steps[0]) == (inst, field) && steps[0].stepOrder == 0) &&
      (forall s :: s in steps ==> Faithful(m, f, s)) &&
      (forall i, j :: 0 <= i < j < |steps| ==> KeyOf(Out(steps[i])) != KeyOf(Out(steps[j]))) &&
      (forall j :: 0 < j < |steps| ==> HasParent(steps, j))
  {
    TraceNodeSpec(m, f, (inst, field), 0, {});
  }

  /** `inst` is a target instance whose target definition declares `field`. */
  predicate IsTargetField(f: Folder, inst: InstanceInfo, field: string) {
    inst.kind == TargetDefinition &&
    match Get(f.targets, inst.transformationName)
    case None => false
    case Some(td) => field in Keys(td.fields)
  }

  /** How a field's chain is found; the trace in `BuildMappingLineage`. */
  type ChainFinder = (InstanceInfo, string) -> seq<Step>

  /** The chain of a target field under its `target.field` key. */
  function ChainEntry(chain: ChainFinder, inst: InstanceInfo, field: string): (string, seq<Step>) {
    (VisitKey(inst.transformationName, field), chain(inst, field))
  }

  /** The non-empty chains of some fields of one target instance, in field order. */
  function FieldEntries(chain: ChainFinder, inst: InstanceInfo, fields: seq<string>): seq<(string, seq<Step>)>
    decreases |fields|
  {
    if fields == [] then []
    else
      var e := ChainEntry(chain, inst, fields[|fields| - 1]);
      FieldEntries(chain, inst, fields[..|fields| - 1]) + (if e.1 != [] then [e] else [])
  }

  /** The non-empty chains of every field of the target instances among `insts`. */
  function LineageEntries(f: Folder, chain: ChainFinder, insts: seq<InstanceInfo>): seq<(string, seq<Step>)>
    decreases |insts|
  {
    if insts == [] then []
    else
      LineageEntries(f, chain, insts[..|insts| - 1]) + OwnEntries(f, chain, insts[|insts| - 1])
  }

  /** The trace of a target instance's field. */
  function Tracer(m: Mapping, f: Folder): ChainFinder {
    (inst: InstanceInfo, field: string) => TraceFieldLineage(m, f, inst.name, field)
  }

  /** `build_mapping_lineage`: every target field's chain under its
      `target.field` key, empty chains left out, a later key overriding. */
  function BuildMappingLineage(m: Mapping, f: Folder): OMap<string, seq<Step>> {
    FromPairs(LineageEntries(f, Tracer(m, f), Values(m.instances)))
  }

  /** `e` is the non-empty chain entry of a declared field of target instance `inst`. */
  predicate FieldEntry(f: Folder, chain: ChainFinder, inst: InstanceInfo, field: string, e: (string, seq<Step>)) {
    IsTargetField(f, inst, field) && e == ChainEntry(chain, inst, field) && e.1 != []
  }

  lemma {:induction false} FieldEntriesSpec(chain: ChainFinder, inst: InstanceInfo, fields: seq<string>)
    ensures forall e :: e in FieldEntries(chain, inst, fields) <==>
      exists field :: field in fields && e == ChainEntry(chain, inst, field) && e.1 != []
    decreases |fields|
  {
    if fields != [] {
      var n := |fields| - 1;
      FieldEntriesSpec(chain, inst, fields[..n]);
      forall e ensures e in FieldEntries(chain, inst, fields) <==>
        exists field :: field in fields && e == ChainEntry(chain, inst, field) && e.1 != []
      {
        if exists field :: field in fields && e == ChainEntry(chain, inst, field) && e.1 != [] {
          var field :| field in fields && e == ChainEntry(chain, inst, field) && e.1 != [];
          if field != fields[n] {
            var k :| 0 <= k < |fields| && fields[k] == field;
            assert field in fields[..n] by {
              assert fields[..n][k] == field;
            }
          }
        }
      }
    }
  }

  /** The entries of the target instances whose transformation names a target definition. */
  function OwnEntries(f: Folder, chain: ChainFinder, inst: InstanceInfo): seq<(string, seq<Step>)> {
    if inst.kind != TargetDefinition then []
    else match Get(f.targets, inst.transformationName)
      case None => []
      case Some(td) => FieldEntries(chain, inst, Keys(td.fields))
  }

  lemma OwnEntriesSpec(f: Folder, chain: ChainFinder, inst: InstanceInfo)
    ensures forall e :: e in OwnEntries(f, chain, inst) <==> exists field :: FieldEntry(f, chain, inst, field, e)
  {
    if inst.kind == TargetDefinition && Get(f.targets, inst.transformationName).Some? {
      var td := Get(f.targets, inst.transformationName).value;
      FieldEntriesSpec(chain, inst, Keys(td.fields));
      forall e ensures e in OwnEntries(f, chain, inst) <==> exists field :: FieldEntry(f, chain, inst, field, e) {
        if e in OwnEntries(f, chain, inst) {
          var field :| field in Keys(td.fields) && e == ChainEntry(chain, inst, field) && e.1 != [];
          assert FieldEntry(f, chain, inst, field, e);
        }
        if exists field :: FieldEntry(f, chain, inst, field, e) {
          var field :| FieldEntry(f, chain, inst, field, e);
          assert field in Keys(td.fields);
        }
      }
    }
  }

  lemma {:induction false} LineageEntriesSpec(f: Folder, chain: ChainFinder, insts: seq<InstanceInfo>)
    ensures forall e :: e in LineageEntries(f, chain, insts) <==>
      exists inst, field :: inst in insts && FieldEntry(f, chain, inst, field, e)
    decreases |insts|
  {
    if insts != [] {
      var n := |insts| - 1;
      var last := insts[n];
      var pre := LineageEntries(f, chain, insts[..n]);
      var own := OwnEntries(f, chain, last);
      assert LineageEntries(f, chain, insts) == pre + own;
      LineageEntriesSpec(f, chain, insts[..n]);
      OwnEntriesSpec(f, chain, last);
      assert insts == insts[..n] + [last];
      forall e ensures e in pre + own <==> exists inst, field :: inst in insts && FieldEntry(f, chain, inst, field, e) {
        EntryFromPrefixOrLast(f, chain, insts[..n], last, e);
      }
    }
  }

  /** One entry of the lineage list, seen through the last instance. */
  lemma EntryFromPrefixOrLast(f: Folder, chain: ChainFinder, init: seq<InstanceInfo>, last: InstanceInfo, e: (string, seq<Step>))
    requires e in LineageEntries(f, chain, init) <==>
      exists inst, field :: inst in init && FieldEntry(f, chain, inst, field, e)
    requires e in OwnEntries(f, chain, last) <==> exists field :: FieldEntry(f, chain, last, field, e)
    ensures e in LineageEntries(f, chain, init) + OwnEntries(f, chain, last) <==>
      exists inst, field :: inst in init + [last] && FieldEntry(f, chain, inst, field, e)
  {
    var insts := init + [last];
    if e in LineageEntries(f, chain, init) {
      var i, field :| i in init && FieldEntry(f, chain, i, field, e);
      assert i in insts;
    } else if e in OwnEntries(f, chain, last) {
      var field :| FieldEntry(f, chain, last, field, e);
      assert last in insts;
    }
    if exists i, field :: i in insts && FieldEntry(f, chain, i, field, e) {
      var i, field :| i in insts && FieldEntry(f, chain, i, field, e);
      if i != last {
        var k :| 0 <= k < |insts| && insts[k] == i;
        assert init[k] == i;
      }
    }
  }

  /** A traced chain is empty exactly when the mapping does not know the instance. */
  lemma TraceEmpty(m: Mapping, f: Folder, inst: InstanceInfo, field: string)
    ensures Tracer(m, f)(inst, field) != [] <==> inst.name in Keys(m.instances)
  {
    TraceFieldLineageSpec(m, f, inst.name, field);
  }

  /** `k` is the `target.field` key of a declared field of a target instance of the mapping. */
  predicate KeyedTargetField(m: Mapping, f: Folder, inst: InstanceInfo, field: string, k: string) {
    inst in Values(m.instances) && IsTargetField(f, inst, field) && VisitKey(inst.transformationName, field) == k
  }

  lemma StoredKeySound(m: Mapping, f: Folder, k: string)
    requires k in Keys(BuildMappingLineage(m, f))
    ensures exists inst, field :: KeyedTargetField(m, f, inst, field, k) && inst.name in Keys(m.instances)
  {
    var chain := Tracer(m, f);
    var entries := LineageEntries(f, chain, Values(m.instances));
    FromPairsMembers(entries);
    LineageEntriesSpec(f, chain, Values(m.instances));
    var i :| 0 <= i < |entries| && Keys(entries)[i] == k;
    assert entries[i] in entries;
    var inst, field :| inst in Values(m.instances) && FieldEntry(f, chain, inst, field, entries[i]);
    TraceEmpty(m, f, inst, field);
    assert KeyedTargetField(m, f, inst, field, k);
  }

  lemma StoredKeyComplete(m: Mapping, f: Folder, inst: InstanceInfo, field: string, k: string)
    requires KeyedTargetField(m, f, inst, field, k) && inst.name in Keys(m.instances)
    ensures k in Keys(BuildMappingLineage(m, f))
  {
    var chain := Tracer(m, f);
    var entries := LineageEntries(f, chain, Values(m.instances));
    FromPairsMembers(entries);
    LineageEntriesSpec(f, chain, Values(m.instances));
    TraceEmpty(m, f, inst, field);
    var e := ChainEntry(chain, inst, field);
    assert FieldEntry(f, chain, inst, field, e);
    assert e in entries;
    var i :| 0 <= i < |entries| && entries[i] == e;
    assert Keys(entries)[i] == k;
  }

  /** The keys stored by `build_mapping_lineage`: a key is present exactly
      when some target instance of the mapping, known to the mapping by its
      own name, declares a field of that key. */
  lemma BuildMappingLineageKeys(m: Mapping, f: Folder)
    ensures Valid(BuildMappingLineage(m, f))
    ensures forall k :: k in Keys(BuildMappingLineage(m, f)) <==>
      exists inst, field :: KeyedTargetField(m, f, inst, field, k) && inst.name in Keys(m.instances)
  {
    FromPairsMembers(LineageEntries(f, Tracer(m, f), Values(m.instances)));
    forall k | k in Keys(BuildMappingLineage(m, f)) ensures exists inst, field :: KeyedTargetField(m, f, inst, field, k) && inst.name in Keys(m.instances) {
      StoredKeySound(m, f, k);
    }
    forall k, inst, field | KeyedTargetField(m, f, inst, field, k) && inst.name in Keys(m.instances)
      ensures k in Keys(BuildMappingLineage(m, f))
    {
      StoredKeyComplete(m, f, inst, field, k);
    }
  }

  /** Every chain stored by `build_mapping_lineage` is the trace of a
      declared field of a target instance under that field's key. */
  lemma BuildMappingLineageChains(m: Mapping, f: Folder)
    ensures forall k :: k in Keys(BuildMappingLineage(m, f)) ==>
      exists inst, field :: KeyedTargetField(m, f, inst, field, k) &&
        Get(BuildMappingLineage(m, f), k) == Some(TraceFieldLineage(m, f, inst.name, field))
  {
    var chain := Tracer(m, f);
    var entries := LineageEntries(f, chain, Values(m.instances));
    var r := BuildMappingLineage(m, f);
    LineageEntriesSpec(f, chain, Values(m.instances));
    forall k | k in Keys(r)
      ensures exists inst, field :: KeyedTargetField(m, f, inst, field, k) && Get(r, k) == Some(TraceFieldLineage(m, f, inst.name, field))
    {
      FromPairsValue(entries, k);
      var e := (k, Get(r, k).value);
      var inst, field :| inst in Values(m.instances) && FieldEntry(f, chain, inst, field, e);
      assert KeyedTargetField(m, f, inst, field, k);
    }
  }

  /** The ports some connector reads from. */
  function FromPorts(m: Mapping): set<Port> {
    set i | 0 <= i < |m.connectors| :: (m.connectors[i].fromInstance, m.connectors[i].fromField)
  }

  /** Every input of a port is a connector's from-port. */
  lemma InputsFromPorts(m: Mapping, port: Port)
    ensures forall q :: q in Inputs(m, port) ==> q in FromPorts(m) && KeyOf(q) in FedKeys(m)
  {
    FeedsSpec(m.connectors, port.0, port.1);
    forall q | q in Inputs(m, port) ensures q in FromPorts(m) && KeyOf(q) in FedKeys(m) {
      var i :| Carries(m.connectors, i, port.0, port.1, q);
    }
  }

  /** A port of a Source Definition instance whose source table the folder defines. */
  predicate IsSourcePort(m: Mapping, f: Folder, p: Port) {
    match Get(m.instances, p.0)
    case None => false
    case Some(inst) => inst.kind == SourceDefinition && Get(f.sources, inst.transformationName).Some?
  }

  /** The dataset and column a source port stands for. */
  function SourceColumn(m: Mapping, f: Folder, p: Port): (string, string)
    requires IsSourcePort(m, f, p)
  {
    (DatasetName(Get(f.sources, Get(m.instances, p.0).value.transformationName).value), p.1)
  }

  /** The breadth-first search of `_find_source_for_instance`: take the
      head of the queue; skip it if its key was visited; otherwise mark it,
      skip an unknown instance, stop at a source port, and else enqueue
      the ports connected into it. `u` bounds the keys that can be queued. */
  function SearchSource(m: Mapping, f: Folder, u: set<string>, queue: seq<Port>, visited: set<string>): (r: Option<Port>)
    requires FedKeys(m) <= u
    requires forall k :: 0 <= k < |queue| ==> KeyOf(queue[k]) in u
    ensures r.Some? ==> IsSourcePort(m, f, r.value)
    decreases |u - visited|, |queue|
  {
    if queue == [] then None
    else
      var p := queue[0];
      var key := KeyOf(p);
      if key in visited then SearchSource(m, f, u, queue[1..], visited)
      else
        var seen := visited + {key};
        assert |u - seen| < |u - visited| by {
          assert u - seen == (u - visited) - {key};
        }
        match Get(m.instances, p.0)
        case None => SearchSource(m, f, u, queue[1..], seen)
        case Some(inst) =>
          if IsSourcePort(m, f, p) then Some(p)
          else
            InputsFed(m, p);
            SearchSource(m, f, u, queue[1..] + Inputs(m, p), seen)
  }

  /** `_find_source_for_instance`: the dataset and column of the first
      source port the search meets, if any. */
  function FindSourceForInstance(m: Mapping, f: Folder, port: Port): (r: Option<(string, string)>)
  {
    match SearchSource(m, f, FedKeys(m) + {KeyOf(port)}, [port], {})
    case None => None
    case Some(p) => Some(SourceColumn(m, f, p))
  }

  /** A set of ports closed under the search's expansion: with each known
      port that is not a source port, it holds the ports connected into it. */
  ghost predicate UpClosed(m: Mapping, f: Folder, s: set<Port>) {
    forall p, q :: p in s && p.0 in Keys(m.instances) && !IsSourcePort(m, f, p) && q in Inputs(m, p) ==> q in s
  }

  /** `p` can be reached from `start` by the search's expansion: it lies in
      every closed set that holds `start`. */
  ghost predicate Reaches(m: Mapping, f: Folder, start: Port, p: Port) {
    forall s :: UpClosed(m, f, s) && start in s ==> p in s
  }

  lemma {:induction false} SearchSourceSound(m: Mapping, f: Folder, u: set<string>, queue: seq<Port>, visited: set<string>, s: set<Port>)
    requires FedKeys(m) <= u
    requires forall k :: 0 <= k < |queue| ==> KeyOf(queue[k]) in u
    requires UpClosed(m, f, s) && forall k :: 0 <= k < |queue| ==> queue[k] in s
    ensures SearchSource(m, f, u, queue, visited).Some? ==> SearchSource(m, f, u, queue, visited).value in s
    decreases |u - visited|, |queue|
  {
    if queue != [] {
      var p := queue[0];
      var key := KeyOf(p);
      if key in visited {
        SearchSourceSound(m, f, u, queue[1..], visited, s);
      } else {
        var seen := visited + {key};
        assert u - seen == (u - visited) - {key};
        if Get(m.instances, p.0).None? {
          SearchSourceSound(m, f, u, queue[1..], seen, s);
        } else if !IsSourcePort(m, f, p) {
          InputsFromPorts(m, p);
          assert p.0 in Keys(m.instances);
          QueueAppend(queue, Inputs(m, p), u, s);
          SearchSourceSound(m, f, u, queue[1..] + Inputs(m, p), seen, s);
        }
      }
    }
  }

  /** Whatever source the search finds is reachable from the start port
      through connectors, and is a source port. */
  lemma FindSourceSound(m: Mapping, f: Folder, port: Port)
    ensures var r := SearchSource(m, f, FedKeys(m) + {KeyOf(port)}, [port], {});
      r.Some? ==> (IsSourcePort(m, f, r.value) && Reaches(m, f, port, r.value) &&
        FindSourceForInstance(m, f, port) == Some(SourceColumn(m, f, r.value)))
    ensures FindSourceForInstance(m, f, port).None? <==> SearchSource(m, f, FedKeys(m) + {KeyOf(port)}, [port], {}).None?
  {
    var u := FedKeys(m) + {KeyOf(port)};
    forall s | UpClosed(m, f, s) && port in s
      ensures SearchSource(m, f, u, [port], {}).Some? ==> SearchSource(m, f, u, [port], {}).value in s
    {
      SearchSourceSound(m, f, u, [port], {}, s);
    }
  }

  /** Visit keys tell ports apart when instance names have no dot. */
  lemma KeyOfInjective(p: Port, q: Port)
    requires '.' !in p.0 && '.' !in q.0 && KeyOf(p) == KeyOf(q)
    ensures p == q
  {
    SplitFirstOf(p.0, p.1, '.');
    SplitFirstOf(q.0, q.1, '.');
  }

  /** What the search knows about every port whose key it has used up: it
      is no source port, and if its instance is known, each port connected
      into it has been visited or waits in the queue. */
  ghost predicate Explored(m: Mapping, f: Folder, ports: set<Port>, queue: seq<Port>, visited: set<string>) {
    forall p :: p in ports && KeyOf(p) in visited ==>
      !IsSourcePort(m, f, p) &&
      (p.0 in Keys(m.instances) ==> forall q :: q in Inputs(m, p) ==> KeyOf(q) in visited || q in queue)
  }

  lemma ExploredSkip(m: Mapping, f: Folder, ports: set<Port>, queue: seq<Port>, visited: set<string>)
    requires queue != [] && KeyOf(queue[0]) in visited
    requires Explored(m, f, ports, queue, visited)
    ensures Explored(m, f, ports, queue[1..], visited)
  {
    assert forall q :: q in queue ==> q == queue[0] || q in queue[1..];
  }

  lemma ExploredMark(m: Mapping, f: Folder, ports: set<Port>, queue: seq<Port>, visited: set<string>, next: seq<Port>)
    requires queue != [] && KeyOf(queue[0]) !in visited
    requires Explored(m, f, ports, queue, visited)
    requires forall p :: p in ports && KeyOf(p) == KeyOf(queue[0]) ==> p == queue[0]
    requires !IsSourcePort(m, f, queue[0])
    requires queue[0].0 in Keys(m.instances) ==> forall q :: q in Inputs(m, queue[0]) ==> q in next
    requires forall q :: q in queue[1..] ==> q in next
    ensures Explored(m, f, ports, next, visited + {KeyOf(queue[0])})
  {
    assert forall q :: q in queue ==> q == queue[0] || q in queue[1..];
  }

  /** Once the queue is empty, the ports whose keys were used up form a
      closed set without source ports. */
  lemma ExploredClosed(m: Mapping, f: Folder, ports: set<Port>, visited: set<string>)
    requires FromPorts(m) <= ports
    requires Explored(m, f, ports, [], visited)
    ensures var s := set p | p in ports && KeyOf(p) in visited;
      UpClosed(m, f, s) && forall p :: p in s ==> !IsSourcePort(m, f, p)
  {
    var s := set p | p in ports && KeyOf(p) in visited;
    forall p, q | p in s && p.0 in Keys(m.instances) && !IsSourcePort(m, f, p) && q in Inputs(m, p)
      ensures q in s
    {
      InputsFromPorts(m, p);
    }
  }

  /** `s` shows the search came up empty for good: it is closed, holds
      the queue and every port whose key was used up, and has no source port. */
  ghost predicate NoSourceWitness(m: Mapping, f: Folder, s: set<Port>, ports: set<Port>, queue: seq<Port>, visited: set<string>) {
    UpClosed(m, f, s) && (forall k :: 0 <= k < |queue| ==> queue[k] in s) &&
    (forall p :: p in ports && KeyOf(p) in visited ==> p in s) &&
    (forall p :: p in s ==> !IsSourcePort(m, f, p))
  }

  lemma WitnessLift(m: Mapping, f: Folder, s: set<Port>, ports: set<Port>, queue: seq<Port>, visited: set<string>, next: seq<Port>, seen: set<string>)
    requires queue != [] && queue[0] in ports && KeyOf(queue[0]) in seen && visited <= seen
    requires forall q :: q in queue[1..] ==> q in next
    requires NoSourceWitness(m, f, s, ports, next, seen)
    ensures NoSourceWitness(m, f, s, ports, queue, visited)
  {
    forall k | 0 <= k < |queue| ensures queue[k] in s {
      if k > 0 {
        assert queue[k] in queue[1..];
      }
    }
  }

  /** What holds of every call the search makes. */
  ghost predicate SearchInv(m: Mapping, f: Folder, u: set<string>, queue: seq<Port>, visited: set<string>, ports: set<Port>) {
    FedKeys(m) <= u &&
    (forall k :: 0 <= k < |queue| ==> KeyOf(queue[k]) in u) &&
    FromPorts(m) <= ports && (forall p :: p in ports ==> '.' !in p.0) &&
    (forall k :: 0 <= k < |queue| ==> queue[k] in ports) &&
    Explored(m, f, ports, queue, visited)
  }

  lemma {:induction false} SearchSourceComplete(m: Mapping, f: Folder, u: set<string>, queue: seq<Port>, visited: set<string>, ports: set<Port>)
    returns (s: set<Port>)
    requires FedKeys(m) <= u
    requires forall k :: 0 <= k < |queue| ==> KeyOf(queue[k]) in u
    requires FromPorts(m) <= ports && forall p :: p in ports ==> '.' !in p.0
    requires forall k :: 0 <= k < |queue| ==> queue[k] in ports
    requires Explored(m, f, ports, queue, visited)
    ensures SearchSource(m, f, u, queue, visited).None? ==> NoSourceWitness(m, f, s, ports, queue, visited)
    decreases |u - visited|, |queue|, 1
  {
    s := {};
    if queue == [] {
      s := set p | p in ports && KeyOf(p) in visited;
      ExploredClosed(m, f, ports, visited);
    } else if KeyOf(queue[0]) in visited {
      s := CompleteSkip(m, f, u, queue, visited, ports);
    } else if Get(m.instances, queue[0].0).None? {
      s := CompleteUnknown(m, f, u, queue, visited, ports);
    } else if !IsSourcePort(m, f, queue[0]) {
      s := CompleteExpand(m, f, u, queue, visited, ports);
    }
  }

  /** A port whose key is used up is passed over. */
  lemma {:induction false} CompleteSkip(m: Mapping, f: Folder, u: set<string>, queue: seq<Port>, visited: set<string>, ports: set<Port>)
    returns (s: set<Port>)
    requires SearchInv(m, f, u, queue, visited, ports)
    requires queue != [] && KeyOf(queue[0]) in visited
    ensures SearchSource(m, f, u, queue, visited).None? ==> NoSourceWitness(m, f, s, ports, queue, visited)
    decreases |u - visited|, |queue|, 0
  {
    var rest := queue[1..];
    ExploredSkip(m, f, ports, queue, visited);
    assert SearchSource(m, f, u, queue, visited) == SearchSource(m, f, u, rest, visited);
    s := SearchSourceComplete(m, f, u, rest, visited, ports);
    if SearchSource(m, f, u, rest, visited).None? {
      WitnessLift(m, f, s, ports, queue, visited, rest, visited);
    }
  }

  /** Only the port at the head of the queue has its key. */
  lemma HeadOnlyWithKey(ports: set<Port>, p: Port)
    requires p in ports && forall q :: q in ports ==> '.' !in q.0
    ensures forall q :: q in ports && KeyOf(q) == KeyOf(p) ==> q == p
  {
    forall q | q in ports && KeyOf(q) == KeyOf(p) ensures q == p {
      KeyOfInjective(q, p);
    }
  }

  /** A port of an instance the mapping does not know uses up its key and
      adds nothing. */
  lemma {:induction false} CompleteUnknown(m: Mapping, f: Folder, u: set<string>, queue: seq<Port>, visited: set<string>, ports: set<Port>)
    returns (s: set<Port>)
    requires SearchInv(m, f, u, queue, visited, ports)
    requires queue != [] && KeyOf(queue[0]) !in visited && Get(m.instances, queue[0].0).None?
    ensures SearchSource(m, f, u, queue, visited).None? ==> NoSourceWitness(m, f, s, ports, queue, visited)
    decreases |u - visited|, |queue|, 0
  {
    var p := queue[0];
    var rest := queue[1..];
    var seen := visited + {KeyOf(p)};
    assert u - seen == (u - visited) - {KeyOf(p)};
    HeadOnlyWithKey(ports, p);
    ExploredMark(m, f, ports, queue, visited, rest);
    assert SearchSource(m, f, u, queue, visited) == SearchSource(m, f, u, rest, seen);
    s := SearchSourceComplete(m, f, u, rest, seen, ports);
    if SearchSource(m, f, u, rest, seen).None? {
      WitnessLift(m, f, s, ports, queue, visited, rest, seen);
    }
  }

  /** The search's step at a known port that is no source keeps what
      holds of every call. */
  lemma ExpandStep(m: Mapping, f: Folder, u: set<string>, queue: seq<Port>, visited: set<string>, ports: set<Port>)
    requires SearchInv(m, f, u, queue, visited, ports)
    requires queue != [] && KeyOf(queue[0]) !in visited && Get(m.instances, queue[0].0).Some?
    requires !IsSourcePort(m, f, queue[0])
    ensures SearchInv(m, f, u, queue[1..] + Inputs(m, queue[0]), visited + {KeyOf(queue[0])}, ports)
    ensures forall q :: q in queue[1..] ==> q in queue[1..] + Inputs(m, queue[0])
  {
    var p := queue[0];
    var next := queue[1..] + Inputs(m, p);
    HeadOnlyWithKey(ports, p);
    InputsFromPorts(m, p);
    QueueAppend(queue, Inputs(m, p), u, ports);
    ExploredMark(m, f, ports, queue, visited, next);
  }

  /** Dropping the head of a queue of known keys and ports and appending
      more of them keeps every entry a known key and port. */
  lemma QueueAppend(queue: seq<Port>, more: seq<Port>, u: set<string>, ports: set<Port>)
    requires queue != []
    requires forall k :: 0 <= k < |queue| ==> KeyOf(queue[k]) in u && queue[k] in ports
    requires forall q :: q in more ==> KeyOf(q) in u && q in ports
    ensures var next := queue[1..] + more;
      (forall k :: 0 <= k < |next| ==> KeyOf(next[k]) in u && next[k] in ports) &&
      (forall q :: q in next <==> q in queue[1..] || q in more)
  {
    var next := queue[1..] + more;
    forall k | 0 <= k < |next| ensures KeyOf(next[k]) in u && next[k] in ports {
      if k < |queue| - 1 {
        assert next[k] == queue[k + 1];
      } else {
        assert next[k] in more;
      }
    }
  }

  /** The search's step at a known port that is no source: it goes on
      with the rest of the queue and the ports connected into it. */
  lemma ExpandUnfold(m: Mapping, f: Folder, u: set<string>, queue: seq<Port>, visited: set<string>, ports: set<Port>,
                     next: seq<Port>, seen: set<string>)
    requires SearchInv(m, f, u, queue, visited, ports)
    requires queue != [] && KeyOf(queue[0]) !in visited && Get(m.instances, queue[0].0).Some?
    requires !IsSourcePort(m, f, queue[0])
    requires next == queue[1..] + Inputs(m, queue[0]) && seen == visited + {KeyOf(queue[0])}
    requires SearchInv(m, f, u, next, seen, ports)
    ensures SearchSource(m, f, u, queue, visited) == SearchSource(m, f, u, next, seen)
  {
  }

  /** A known port that is no source uses up its key and queues the ports
      connected into it. */
  lemma {:induction false} CompleteExpand(m: Mapping, f: Folder, u: set<string>, queue: seq<Port>, visited: set<string>, ports: set<Port>)
    returns (s: set<Port>)
    requires SearchInv(m, f, u, queue, visited, ports)
    requires queue != [] && KeyOf(queue[0]) !in visited && Get(m.instances, queue[0].0).Some?
    requires !IsSourcePort(m, f, queue[0])
    ensures SearchSource(m, f, u, queue, visited).None? ==> NoSourceWitness(m, f, s, ports, queue, visited)
    decreases |u - visited|, |queue|, 0
  {
    var seen := visited + {KeyOf(queue[0])};
    assert u - seen == (u - visited) - {KeyOf(queue[0])};
    var next := queue[1..] + Inputs(m, queue[0]);
    ExpandStep(m, f, u, queue, visited, ports);
    ExpandUnfold(m, f, u, queue, visited, ports, next, seen);
    s := SearchSourceComplete(m, f, u, next, seen, ports);
    if SearchSource(m, f, u, next, seen).None? {
      WitnessLift(m, f, s, ports, queue, visited, next, seen);
    }
  }

  /** With dot-free instance names the search misses nothing: when it finds
      no source, no source port is reachable from the start port. */
  lemma FindSourceComplete(m: Mapping, f: Folder, port: Port)
    requires '.' !in port.0 && forall p :: p in FromPorts(m) ==> '.' !in p.0
    ensures FindSourceForInstance(m, f, port).None? ==> forall p :: Reaches(m, f, port, p) ==> !IsSourcePort(m, f, p)
  {
    var ports := FromPorts(m) + {port};
    var s := SearchSourceComplete(m, f, FedKeys(m) + {KeyOf(port)}, [port], {}, ports);
  }
}
