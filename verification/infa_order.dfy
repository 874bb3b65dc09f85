/** Execution order of a mapping's instances, and of a workflow's sessions. */
module InfaOrder {
  import opened Basics
  import opened OrderedMap
  import opened InfaModel

  // ---------------------------------------------------------------------
  // Instance order (Kahn's algorithm over the connectors)
  // ---------------------------------------------------------------------

  /** The instances some connector feeds into `v`; connectors with an
      endpoint outside the mapping are ignored. */
  function Preds(m: Mapping, v: string): set<string> {
    set c | c in m.connectors && c.toInstance == v && c.fromInstance in Keys(m.instances) && v in Keys(m.instances)
      :: c.fromInstance
  }

  /** The instances `u` feeds through some connector. */
  function Succs(m: Mapping, u: string): set<string> {
    set c | c in m.connectors && c.fromInstance == u && u in Keys(m.instances) && c.toInstance in Keys(m.instances)
      :: c.toInstance
  }

  lemma PredsSuccs(m: Mapping, u: string, v: string)
    ensures u in Preds(m, v) <==> v in Succs(m, u)
  {
    if u in Preds(m, v) {
      var c :| c in m.connectors && c.toInstance == v && c.fromInstance in Keys(m.instances) && v in Keys(m.instances) && c.fromInstance == u;
    }
    if v in Succs(m, u) {
      var c :| c in m.connectors && c.fromInstance == u && u in Keys(m.instances) && c.toInstance in Keys(m.instances) && c.toInstance == v;
    }
  }

  /** Every instance of `r` comes after all of its predecessors. */
  predicate Respects(m: Mapping, r: seq<string>) {
    forall j :: 0 <= j < |r| ==> Preds(m, r[j]) <= Elems(r[..j])
  }

  /** Every instance left out of `done` waits on another one left out. */
  predicate Stuck(m: Mapping, done: set<string>) {
    forall v :: v in Keys(m.instances) && v !in done ==> exists u :: u in Preds(m, v) && u !in done
  }

  /** What the `incoming` table holds for `v` once `done` are processed. */
  predicate IncomingIs(m: Mapping, incoming: map<string, set<string>>, v: string, done: set<string>) {
    v in incoming && incoming[v] == Preds(m, v) - done
  }

  /** The invariant of the outer loop: `result` was taken off the queue,
      every queued instance has all its predecessors in `result`, and every
      instance whose predecessors are all done has been queued. */
  predicate KahnState(m: Mapping, incoming: map<string, set<string>>, result: seq<string>, queue: seq<string>) {
    var names := Keys(m.instances);
    && Distinct(result + queue)
    && Elems(result + queue) <= Elems(names)
    && (forall v :: v in names ==> IncomingIs(m, incoming, v, Elems(result)))
    && Respects(m, result)
    && (forall i :: 0 <= i < |queue| ==> Preds(m, queue[i]) <= Elems(result))
    && (forall v :: v in names && Preds(m, v) <= Elems(result) ==> v in result + queue)
  }

  /** The entries of `s` not in `done`, in order. */
  function Remaining(s: seq<string>, done: seq<string>): (r: seq<string>)
    ensures forall x :: x in r <==> x in s && x !in done
    ensures Distinct(s) ==> Distinct(r)
    decreases |s|
  {
    if s == [] then []
    else
      var n := |s| - 1;
      var r := Remaining(s[..n], done) + (if s[n] in done then [] else [s[n]]);
      assert forall x :: x in s <==> x in s[..n] || x == s[n] by {
        assert s == s[..n] + [s[n]];
      }
      assert Distinct(s) ==> s[n] !in s[..n];
      r
  }

  /** `_get_transformation_order`: every instance once; a prefix in
      dependency order, then whatever sits on or behind a cycle, in
      insertion order. The successors of an instance come out of a set, so
      the order in which freed instances join the queue is left open. */
  method TransformationOrder(m: Mapping) returns (result: seq<string>)
    requires Valid(m.instances)
    ensures Distinct(result)
    ensures forall x :: x in result <==> x in Keys(m.instances)
    ensures exists n ::
              && 0 <= n <= |result|
              && Respects(m, result[..n])
              && Stuck(m, Elems(result[..n]))
              && result[n..] == Remaining(Keys(m.instances), result[..n])
  {
    var kahn := KahnPhase(m);
    result := AppendRemaining(Keys(m.instances), kahn);
    OrderFacts(m, kahn, result);
  }

  /** The `while no_incoming` loop: instances whose predecessors are all
      placed, taken off a FIFO queue. */
  method KahnPhase(m: Mapping) returns (result: seq<string>)
    requires Valid(m.instances)
    ensures Distinct(result) && Elems(result) <= Elems(Keys(m.instances))
    ensures Respects(m, result) && Stuck(m, Elems(result))
  {
    var names := Keys(m.instances);
    var incoming := map v | v in names :: Preds(m, v);
    var queue := Basics.Filter(names, v => Preds(m, v) == {});
    result := [];
    KahnStart(m, incoming, queue);
    while queue != []
      invariant KahnState(m, incoming, result, queue)
      invariant |result| <= |names|
      decreases |names| - |result|
    {
      var node := queue[0];
      var before := result;
      var waiting := queue;
      queue := queue[1..];
      result := result + [node];
      InnerStart(m, incoming, before, waiting);
      incoming, queue := Release(m, incoming, before, node, queue);
      InnerDone(m, incoming, before, node, queue);
    }
    OuterDone(m, incoming, result);
  }

  /** The `for next_node in outgoing[node]` loop: drop `node` from each
      successor's waiting set and queue those left with nothing to wait for.
      The successors are taken in no particular order. */
  method Release(m: Mapping, incoming0: map<string, set<string>>, before: seq<string>, node: string,
                 queue0: seq<string>)
    returns (incoming: map<string, set<string>>, queue: seq<string>)
    requires InnerState(m, incoming0, before, node, queue0, Succs(m, node))
    ensures InnerState(m, incoming, before, node, queue, {})
  {
    incoming, queue := incoming0, queue0;
    var rem := Succs(m, node);
    while rem != {}
      invariant rem <= Succs(m, node)
      invariant InnerState(m, incoming, before, node, queue, rem)
      decreases |rem|
    {
      var v :| v in rem;
      InnerStep(m, incoming, before, node, queue, rem, v);
      rem := rem - {v};
      incoming := incoming[v := incoming[v] - {node}];
      if incoming[v] == {} {
        queue := queue + [v];
      }
    }
  }

  /** The closing loop: every name not yet placed, in the given order. */
  method AppendRemaining(names: seq<string>, kahn: seq<string>) returns (result: seq<string>)
    requires Distinct(names)
    ensures result == kahn + Remaining(names, kahn)
  {
    result := kahn;
    var i := 0;
    assert names[..0] == [];
    assert kahn + [] == kahn;
    while i < |names|
      invariant 0 <= i <= |names|
      invariant result == kahn + Remaining(names[..i], kahn)
    {
      RemainingAppend(names, kahn, i);
      if names[i] !in result {
        result := result + [names[i]];
      } else {
        assert result + [] == result;
      }
      i := i + 1;
    }
    assert names[..i] == names;
  }

  lemma KahnStart(m: Mapping, incoming: map<string, set<string>>, queue: seq<string>)
    requires Valid(m.instances)
    requires incoming == map v | v in Keys(m.instances) :: Preds(m, v)
    requires queue == Basics.Filter(Keys(m.instances), v => Preds(m, v) == {})
    ensures KahnState(m, incoming, [], queue)
  {
    var none: seq<string> := [];
    assert Elems(none) == {};
    assert none + queue == queue;
    FilterDistinct(Keys(m.instances), v => Preds(m, v) == {});
    QueuedAreNames(m, queue);
    QueuedAreAll(m, queue);
    assert Respects(m, none);
  }

  /** The first queue holds instances without predecessors. */
  lemma QueuedAreNames(m: Mapping, queue: seq<string>)
    requires queue == Basics.Filter(Keys(m.instances), v => Preds(m, v) == {})
    ensures Elems(queue) <= Elems(Keys(m.instances))
    ensures forall i :: 0 <= i < |queue| ==> Preds(m, queue[i]) == {}
  {
    ElemsIn(queue);
    ElemsIn(Keys(m.instances));
  }

  /** The first queue holds every instance without predecessors. */
  lemma QueuedAreAll(m: Mapping, queue: seq<string>)
    requires queue == Basics.Filter(Keys(m.instances), v => Preds(m, v) == {})
    ensures forall v :: v in Keys(m.instances) && Preds(m, v) == {} ==> v in queue
  {
    var names := Keys(m.instances);
    forall v | v in names && Preds(m, v) == {} ensures v in queue {
      var i :| 0 <= i < |names| && names[i] == v;
    }
  }

  /** One more name extends what the closing loop has built so far. */
  lemma RemainingAppend(names: seq<string>, kahn: seq<string>, i: nat)
    requires Distinct(names) && i < |names|
    ensures names[i] in kahn + Remaining(names[..i], kahn) <==> names[i] in kahn
    ensures kahn + Remaining(names[..i + 1], kahn)
         == kahn + Remaining(names[..i], kahn) + (if names[i] in kahn then [] else [names[i]])
  {
    RemainingStep(names, kahn, i);
    var r := Remaining(names[..i], kahn);
    var x: seq<string> := if names[i] in kahn then [] else [names[i]];
    assert kahn + (r + x) == kahn + r + x;
  }

  lemma RemainingStep(names: seq<string>, kahn: seq<string>, i: nat)
    requires Distinct(names) && i < |names|
    ensures Remaining(names[..i + 1], kahn)
         == Remaining(names[..i], kahn) + (if names[i] in kahn then [] else [names[i]])
    ensures names[i] in kahn + Remaining(names[..i], kahn) <==> names[i] in kahn
  {
    assert names[..i + 1][..i] == names[..i];
    assert names[i] !in names[..i];
  }

  /** What the two phases together give. */
  lemma OrderFacts(m: Mapping, kahn: seq<string>, result: seq<string>)
    requires Valid(m.instances)
    requires Distinct(kahn) && Elems(kahn) <= Elems(Keys(m.instances))
    requires Respects(m, kahn) && Stuck(m, Elems(kahn))
    requires result == kahn + Remaining(Keys(m.instances), kahn)
    ensures Distinct(result)
    ensures forall x :: x in result <==> x in Keys(m.instances)
    ensures exists n ::
              && 0 <= n <= |result|
              && Respects(m, result[..n])
              && Stuck(m, Elems(result[..n]))
              && result[n..] == Remaining(Keys(m.instances), result[..n])
  {
    var names := Keys(m.instances);
    var rest := Remaining(names, kahn);
    ElemsIn(kahn);
    ElemsIn(names);
    assert result[..|kahn|] == kahn;
    assert result[|kahn|..] == rest;
    forall i, j | 0 <= i < j < |result| ensures result[i] != result[j] {
      if j < |kahn| {
      } else if i >= |kahn| {
        assert result[i] == rest[i - |kahn|] && result[j] == rest[j - |kahn|];
      } else {
        assert result[i] in kahn && result[j] == rest[j - |kahn|];
      }
    }
  }

  /** The inner loop's invariant while the successors `rem` of `node` are
      still to be released. */
  predicate InnerState(m: Mapping, incoming: map<string, set<string>>, before: seq<string>, node: string,
                       queue: seq<string>, rem: set<string>)
  {
    QueueState(m, before + [node], queue) && WaitState(m, incoming, before, node, queue, rem)
  }

  /** `done` and the queue hold distinct instances, `done` in dependency
      order, and every queued instance has all its predecessors done. */
  predicate QueueState(m: Mapping, done: seq<string>, queue: seq<string>) {
    && Distinct(done + queue)
    && Elems(done + queue) <= Elems(Keys(m.instances))
    && Respects(m, done)
    && (forall i :: 0 <= i < |queue| ==> Preds(m, queue[i]) <= Elems(done))
  }

  /** The successors in `rem` still count `node` as a predecessor; every
      other instance counts none of `before + [node]` and is queued once
      all its predecessors are done. */
  predicate WaitState(m: Mapping, incoming: map<string, set<string>>, before: seq<string>, node: string,
                      queue: seq<string>, rem: set<string>)
  {
    var names := Keys(m.instances);
    var done := before + [node];
    && (forall v :: v in names && v in rem ==> IncomingIs(m, incoming, v, Elems(before)))
    && (forall v :: v in names && v !in rem ==> IncomingIs(m, incoming, v, Elems(done)))
    && (forall v :: v in names && v !in rem && Preds(m, v) <= Elems(done) ==> v in done + queue)
    && (forall v :: v in rem ==> v !in done + queue && node in Preds(m, v))
  }

  lemma InnerStart(m: Mapping, incoming: map<string, set<string>>, before: seq<string>, waiting: seq<string>)
    requires KahnState(m, incoming, before, waiting)
    requires waiting != []
    ensures InnerState(m, incoming, before, waiting[0], waiting[1..], Succs(m, waiting[0]))
  {
    var node := waiting[0];
    var queue := waiting[1..];
    assert waiting == [node] + queue;
    var names := Keys(m.instances);
    var done := before + [node];
    assert before + ([node] + queue) == done + queue;
    assert Preds(m, node) <= Elems(before) by {
      assert ([node] + queue)[0] == node;
    }
    ElemsIn(before);
    ElemsAppend(before, [node]);
    ElemsIn([node]);
    DistinctAppend(before, [node] + queue);
    assert node !in Elems(before);
    assert Elems(done) == Elems(before) + {node};
    forall v | v in names && v !in Succs(m, node)
      ensures IncomingIs(m, incoming, v, Elems(done))
    {
      PredsSuccs(m, node, v);
    }
    assert Respects(m, done) by {
      forall j | 0 <= j < |done| ensures Preds(m, done[j]) <= Elems(done[..j]) {
        if j < |before| {
          assert done[..j] == before[..j];
        } else {
          assert done[..j] == before;
        }
      }
    }
    forall i | 0 <= i < |queue| ensures Preds(m, queue[i]) <= Elems(done) {
      assert queue[i] == ([node] + queue)[i + 1];
    }
    forall v | v in names && v !in Succs(m, node) && Preds(m, v) <= Elems(done)
      ensures v in done + queue
    {
      PredsSuccs(m, node, v);
    }
    forall j | 0 <= j < |before| ensures before[j] !in Succs(m, node) {
      PredsSuccs(m, node, before[j]);
      assert Preds(m, before[j]) <= Elems(before[..j]);
      ElemsIn(before[..j]);
    }
    forall i | 0 <= i < |queue| ensures queue[i] !in Succs(m, node) {
      PredsSuccs(m, node, queue[i]);
      assert queue[i] == ([node] + queue)[i + 1];
    }
    PredsSuccs(m, node, node);
    forall v | v in Succs(m, node) ensures node in Preds(m, v) {
      PredsSuccs(m, node, v);
    }
  }

  lemma InnerStep(m: Mapping, incoming: map<string, set<string>>, before: seq<string>, node: string,
                  queue: seq<string>, rem: set<string>, v: string)
    requires rem <= Succs(m, node)
    requires InnerState(m, incoming, before, node, queue, rem)
    requires v in rem
    ensures var inc := incoming[v := incoming[v] - {node}];
            InnerState(m, inc, before, node, if inc[v] == {} then queue + [v] else queue, rem - {v})
  {
    var done := before + [node];
    PredsSuccs(m, node, v);
    ElemsAppend(before, [node]);
    ElemsIn([node]);
    assert Elems(done) == Elems(before) + {node};
    if incoming[v] - {node} == {} {
      InnerStepFreed(m, incoming, before, node, queue, rem, v);
    } else {
      InnerStepWaits(m, incoming, before, node, queue, rem, v);
    }
  }

  /** A successor with predecessors left keeps waiting. */
  lemma InnerStepWaits(m: Mapping, incoming: map<string, set<string>>, before: seq<string>, node: string,
                       queue: seq<string>, rem: set<string>, v: string)
    requires InnerState(m, incoming, before, node, queue, rem)
    requires v in rem && v in Keys(m.instances) && node in Preds(m, v)
    requires Elems(before + [node]) == Elems(before) + {node}
    requires incoming[v] - {node} != {}
    ensures InnerState(m, incoming[v := incoming[v] - {node}], before, node, queue, rem - {v})
  {
    WaitKept(m, incoming, before, node, queue, rem, v);
  }

  lemma WaitKept(m: Mapping, incoming: map<string, set<string>>, before: seq<string>, node: string,
                 queue: seq<string>, rem: set<string>, v: string)
    requires WaitState(m, incoming, before, node, queue, rem)
    requires v in rem && v in Keys(m.instances)
    requires Elems(before + [node]) == Elems(before) + {node}
    requires incoming[v] - {node} != {}
    ensures WaitState(m, incoming[v := incoming[v] - {node}], before, node, queue, rem - {v})
  {
    assert incoming[v] - {node} == Preds(m, v) - Elems(before + [node]);
  }

  /** A successor with no predecessor left joins the queue. */
  lemma InnerStepFreed(m: Mapping, incoming: map<string, set<string>>, before: seq<string>, node: string,
                       queue: seq<string>, rem: set<string>, v: string)
    requires InnerState(m, incoming, before, node, queue, rem)
    requires v in rem && v in Keys(m.instances) && node in Preds(m, v)
    requires Elems(before + [node]) == Elems(before) + {node}
    requires incoming[v] - {node} == {}
    ensures InnerState(m, incoming[v := incoming[v] - {node}], before, node, queue + [v], rem - {v})
  {
    var done := before + [node];
    assert incoming[v] - {node} == Preds(m, v) - Elems(done);
    QueueSnoc(m, done, queue, v);
    WaitFreed(m, incoming, before, node, queue, rem, v);
  }

  /** Queueing an instance whose predecessors are all done. */
  lemma QueueSnoc(m: Mapping, done: seq<string>, queue: seq<string>, v: string)
    requires QueueState(m, done, queue)
    requires v !in done + queue && v in Keys(m.instances) && Preds(m, v) <= Elems(done)
    ensures QueueState(m, done, queue + [v])
  {
    var q := queue + [v];
    assert done + q == (done + queue) + [v];
    DistinctSnoc(done + queue, v);
    forall i | 0 <= i < |q| ensures Preds(m, q[i]) <= Elems(done) {
      if i < |queue| {
        assert q[i] == queue[i];
      }
    }
  }

  lemma WaitFreed(m: Mapping, incoming: map<string, set<string>>, before: seq<string>, node: string,
                  queue: seq<string>, rem: set<string>, v: string)
    requires WaitState(m, incoming, before, node, queue, rem)
    requires v in rem && v in Keys(m.instances)
    requires incoming[v] - {node} == Preds(m, v) - Elems(before + [node])
    ensures WaitState(m, incoming[v := incoming[v] - {node}], before, node, queue + [v], rem - {v})
  {
    assert (before + [node]) + (queue + [v]) == ((before + [node]) + queue) + [v];
  }

  lemma InnerDone(m: Mapping, incoming: map<string, set<string>>, before: seq<string>, node: string,
                  queue: seq<string>)
    requires InnerState(m, incoming, before, node, queue, {})
    ensures KahnState(m, incoming, before + [node], queue)
    ensures |before + [node]| <= |Keys(m.instances)|
  {
    ElemsAppend(before + [node], queue);
    DistinctAppend(before + [node], queue);
    DistinctBound(before + [node], Keys(m.instances));
  }

  lemma OuterDone(m: Mapping, incoming: map<string, set<string>>, result: seq<string>)
    requires KahnState(m, incoming, result, [])
    ensures Distinct(result) && Elems(result) <= Elems(Keys(m.instances))
    ensures Respects(m, result) && Stuck(m, Elems(result))
  {
    assert result + [] == result;
    ElemsIn(result);
    forall v | v in Keys(m.instances) && v !in Elems(result)
      ensures exists u :: u in Preds(m, v) && u !in Elems(result)
    {
      assert !(Preds(m, v) <= Elems(result));
    }
  }

  /** `a` is listed before `b`. */
  predicate Precedes(r: seq<string>, a: string, b: string) {
    exists i, j :: 0 <= i < j < |r| && r[i] == a && r[j] == b
  }

  /** The connectors, restricted to the mapping, only ever climb `rank`:
      a witness that they have no cycle. */
  predicate Ranked(m: Mapping, rank: string -> nat) {
    forall c :: c in m.connectors && c.fromInstance in Keys(m.instances) && c.toInstance in Keys(m.instances)
      ==> rank(c.fromInstance) < rank(c.toInstance)
  }

  lemma {:induction false} PlacedBelow(m: Mapping, done: set<string>, rank: string -> nat, k: nat)
    requires Stuck(m, done) && Ranked(m, rank)
    ensures forall v :: v in Keys(m.instances) && rank(v) < k ==> v in done
  {
    if k > 0 {
      PlacedBelow(m, done, rank, k - 1);
      forall v | v in Keys(m.instances) && rank(v) == k - 1 ensures v in done {
        forall u | u in Preds(m, v) ensures rank(u) < rank(v) && u in done {
          var c :| c in m.connectors && c.toInstance == v && c.fromInstance in Keys(m.instances) && v in Keys(m.instances) && c.fromInstance == u;
        }
      }
    }
  }

  /** Without a cycle the dependency-ordered prefix is everything, so every
      connector's from-instance comes before its to-instance. */
  lemma AcyclicOrder(m: Mapping, r: seq<string>, n: nat, rank: string -> nat)
    requires Distinct(r) && forall x :: x in r <==> x in Keys(m.instances)
    requires n <= |r| && Respects(m, r[..n]) && Stuck(m, Elems(r[..n]))
    requires Ranked(m, rank)
    ensures n == |r|
    ensures forall c :: c in m.connectors && c.fromInstance in Keys(m.instances) && c.toInstance in Keys(m.instances)
              ==> Precedes(r, c.fromInstance, c.toInstance)
  {
    var done := Elems(r[..n]);
    ElemsIn(r[..n]);
    forall v | v in Keys(m.instances) ensures v in done {
      PlacedBelow(m, done, rank, rank(v) + 1);
    }
    DistinctAppend(r[..n], r[n..]);
    assert r == r[..n] + r[n..];
    assert forall x :: x in r[n..] ==> x in done && x !in r[n..];
    ElemsIn(r[n..]);
    ElemsCard(r[n..]);
    assert Elems(r[n..]) == {};
    assert r[..n] == r;
    forall c | c in m.connectors && c.fromInstance in Keys(m.instances) && c.toInstance in Keys(m.instances)
      ensures Precedes(r, c.fromInstance, c.toInstance)
    {
      var j :| 0 <= j < |r| && r[j] == c.toInstance;
      assert c.fromInstance in Preds(m, r[j]);
      assert Preds(m, r[j]) <= Elems(r[..j]);
      ElemsIn(r[..j]);
      var i :| 0 <= i < j && r[..j][i] == c.fromInstance;
      assert r[i] == c.fromInstance;
    }
  }

  // ---------------------------------------------------------------------
  // Session order of a workflow
  // ---------------------------------------------------------------------

  /** A `TASKINSTANCE`: its `NAME` and `TASKTYPE`. */
  datatype Task = Task(name: string, taskType: string)

  /** A `WORKFLOWLINK`: `(FROMTASK, TOTASK)`. */
  type Link = (string, string)

  function SessionTaskNames(tasks: seq<Task>): seq<string> {
    if tasks == [] then []
    else (if tasks[0].taskType == "Session" then [tasks[0].name] else []) + SessionTaskNames(tasks[1..])
  }

  /** The keys of `task_order`: each Session task's name, at its first
      appearance. */
  function SessionOrder(tasks: seq<Task>): seq<string> {
    Dedup(SessionTaskNames(tasks))
  }

  lemma {:induction false} SessionTaskNamesIn(tasks: seq<Task>, x: string)
    ensures x in SessionTaskNames(tasks) <==> Task(x, "Session") in tasks
  {
    if tasks != [] {
      SessionTaskNamesIn(tasks[1..], x);
      assert tasks == [tasks[0]] + tasks[1..];
    }
  }

  /** `task_order` lists every Session task once, in declaration order. */
  lemma SessionOrderSpec(tasks: seq<Task>)
    ensures Distinct(SessionOrder(tasks))
    ensures forall x :: x in SessionOrder(tasks) <==> Task(x, "Session") in tasks
    ensures FirstSeenOrder(SessionOrder(tasks), SessionTaskNames(tasks))
  {
    DedupSpec(SessionTaskNames(tasks));
    forall x ensures x in SessionOrder(tasks) <==> Task(x, "Session") in tasks {
      SessionTaskNamesIn(tasks, x);
    }
  }

  /** `next_tasks.get(current, [])`. */
  function NextTasks(links: seq<Link>, t: string): seq<string> {
    GetOr(Group(links), t, [])
  }

  lemma NextTasksIn(links: seq<Link>, t: string, x: string)
    ensures x in NextTasks(links, t) <==> (t, x) in links
  {
    GroupGet(links, t);
    ValuesForIn(links, t, x);
    if t !in Keys(links) {
      assert (t, x) !in links;
    }
  }

  /** Workflow tasks that are no link's `TOTASK`. */
  function StartTasks(sessions: seq<string>, links: seq<Link>): (r: seq<string>)
    ensures forall x :: x in r <==> x in sessions && forall l :: l in links ==> l.1 != x
  {
    if sessions == [] then []
    else
      (if forall l :: l in links ==> l.1 != sessions[0] then [sessions[0]] else [])
      + StartTasks(sessions[1..], links)
  }

  /** Every task name the walk can meet. */
  function TaskUniverse(sessions: seq<string>, links: seq<Link>): (r: set<string>)
    ensures forall x :: x in sessions ==> x in r
  {
    ElemsIn(sessions);
    Elems(sessions) + (set l | l in links :: l.0) + (set l | l in links :: l.1)
  }

  /** The FIFO walk over the links, returning the Sessions it lists and the
      tasks it visited. */
  function Walk(sessions: seq<string>, links: seq<Link>, u: set<string>, queue: seq<string>, visited: set<string>)
    : (r: (seq<string>, set<string>))
    requires TaskUniverse(sessions, links) <= u && visited <= u
    requires forall i :: 0 <= i < |queue| ==> queue[i] in u
    ensures visited <= r.1 <= u
    ensures forall i :: 0 <= i < |queue| ==> queue[i] in r.1
    ensures Distinct(r.0)
    ensures forall x :: x in r.0 <==> x in r.1 && x !in visited && x in sessions
    decreases |u - visited|, |queue|
  {
    if queue == [] then ([], visited)
    else
      var cur := queue[0];
      if cur in visited then Walk(sessions, links, u, queue[1..], visited)
      else
        var next := NextTasks(links, cur);
        assert forall x :: x in next ==> x in u by {
          forall x | x in next ensures x in u {
            NextTasksIn(links, cur, x);
          }
        }
        RemainderShrinks(u, visited, visited + {cur});
        var rest := Walk(sessions, links, u, queue[1..] + next, visited + {cur});
        assert forall i :: 0 <= i < |queue| - 1 ==> queue[1..][i] == (queue[1..] + next)[i];
        WalkCons(sessions, cur, visited, rest.0, rest.1);
        ((if cur in sessions then [cur] else []) + rest.0, rest.1)
  }

  /** Listing a newly visited task before the rest of the walk. */
  lemma WalkCons(sessions: seq<string>, cur: string, visited: set<string>, listed: seq<string>, seen: set<string>)
    requires cur !in visited && visited + {cur} <= seen
    requires Distinct(listed)
    requires forall x :: x in listed <==> x in seen && x !in visited + {cur} && x in sessions
    ensures Distinct((if cur in sessions then [cur] else []) + listed)
    ensures forall x :: x in (if cur in sessions then [cur] else []) + listed <==> x in seen && x !in visited && x in sessions
  {
    var head: seq<string> := if cur in sessions then [cur] else [];
    var r := head + listed;
    forall i, j | 0 <= i < j < |r| ensures r[i] != r[j] {
      if i < |head| {
        assert r[i] == cur && r[j] == listed[j - |head|];
      } else {
        assert r[i] == listed[i - |head|] && r[j] == listed[j - |head|];
      }
    }
  }

  /** No link leaves `s`. */
  ghost predicate LinkClosed(links: seq<Link>, s: set<string>) {
    forall l :: l in links && l.0 in s ==> l.1 in s
  }

  /** `x` can be reached over the links from one of `starts`: it lies in
      every link-closed set holding them. */
  ghost predicate Reached(links: seq<Link>, starts: seq<string>, x: string) {
    forall s :: LinkClosed(links, s) && Elems(starts) <= s ==> x in s
  }

  /** Whatever the walk newly visits is reachable from its queue. */
  lemma {:induction false} WalkSound(sessions: seq<string>, links: seq<Link>, u: set<string>, queue: seq<string>,
                                     visited: set<string>, s: set<string>)
    requires TaskUniverse(sessions, links) <= u && visited <= u
    requires forall i :: 0 <= i < |queue| ==> queue[i] in u
    requires LinkClosed(links, s) && forall i :: 0 <= i < |queue| ==> queue[i] in s
    ensures Walk(sessions, links, u, queue, visited).1 - visited <= s
    decreases |u - visited|, |queue|
  {
    if queue != [] {
      var cur := queue[0];
      var next := NextTasks(links, cur);
      if cur in visited {
        WalkSound(sessions, links, u, queue[1..], visited, s);
      } else {
        forall x | x in next ensures x in u && x in s {
          NextTasksIn(links, cur, x);
        }
        RemainderShrinks(u, visited, visited + {cur});
        var q := queue[1..] + next;
        forall i | 0 <= i < |q| ensures q[i] in s {
          if i < |queue| - 1 {
            assert q[i] == queue[i + 1];
          } else {
            assert q[i] in next;
          }
        }
        WalkSound(sessions, links, u, q, visited + {cur}, s);
      }
    }
  }

  /** Every link out of a task the walk visits leads to a visited task. */
  lemma {:induction false} WalkClosed(sessions: seq<string>, links: seq<Link>, u: set<string>, queue: seq<string>,
                                      visited: set<string>)
    requires TaskUniverse(sessions, links) <= u && visited <= u
    requires forall i :: 0 <= i < |queue| ==> queue[i] in u
    ensures forall l :: l in links && l.0 in Walk(sessions, links, u, queue, visited).1 - visited
              ==> l.1 in Walk(sessions, links, u, queue, visited).1
    decreases |u - visited|, |queue|
  {
    if queue != [] {
      var cur := queue[0];
      var next := NextTasks(links, cur);
      if cur in visited {
        WalkClosed(sessions, links, u, queue[1..], visited);
      } else {
        forall x | x in next ensures x in u {
          NextTasksIn(links, cur, x);
        }
        RemainderShrinks(u, visited, visited + {cur});
        var q := queue[1..] + next;
        WalkClosed(sessions, links, u, q, visited + {cur});
        var r := Walk(sessions, links, u, q, visited + {cur});
        forall l | l in links && l.0 == cur ensures l.1 in r.1 {
          NextTasksIn(links, cur, l.1);
          var k :| 0 <= k < |next| && next[k] == l.1;
          assert q[|queue| - 1 + k] == l.1;
        }
      }
    }
  }

  /** `_parse_workflow`'s session order. */
  function WorkflowSessions(tasks: seq<Task>, links: seq<Link>): seq<string> {
    var sessions := SessionOrder(tasks);
    if links == [] then sessions
    else
      var ordered := Walk(sessions, links, TaskUniverse(sessions, links), StartTasks(sessions, links), {}).0;
      if ordered != [] then ordered else sessions
  }

  /** The walk from the start tasks lists exactly the reachable Sessions,
      each once. */
  lemma WalkSpec(sessions: seq<string>, links: seq<Link>)
    ensures var ordered := Walk(sessions, links, TaskUniverse(sessions, links), StartTasks(sessions, links), {}).0;
            && Distinct(ordered)
            && forall x :: x in ordered <==> x in sessions && Reached(links, StartTasks(sessions, links), x)
  {
    var u := TaskUniverse(sessions, links);
    var starts := StartTasks(sessions, links);
    var r := Walk(sessions, links, u, starts, {});
    WalkClosed(sessions, links, u, starts, {});
    ElemsIn(starts);
    forall s | LinkClosed(links, s) && Elems(starts) <= s ensures r.1 <= s {
      WalkSound(sessions, links, u, starts, {}, s);
    }
    assert LinkClosed(links, r.1);
  }

  /** `_parse_workflow`: without links, or when the walk lists nothing, the
      declaration order; otherwise the Sessions reachable from the Sessions
      no link enters, each once. */
  lemma WorkflowSessionsSpec(tasks: seq<Task>, links: seq<Link>)
    ensures Distinct(WorkflowSessions(tasks, links))
    ensures forall x :: x in WorkflowSessions(tasks, links) ==> Task(x, "Session") in tasks
    ensures links == [] ==> WorkflowSessions(tasks, links) == SessionOrder(tasks)
    ensures links != [] && StartTasks(SessionOrder(tasks), links) == [] ==>
              WorkflowSessions(tasks, links) == SessionOrder(tasks)
    ensures links != [] && StartTasks(SessionOrder(tasks), links) != [] ==>
              forall x :: x in WorkflowSessions(tasks, links)
                <==> x in SessionOrder(tasks) && Reached(links, StartTasks(SessionOrder(tasks), links), x)
  {
    var sessions := SessionOrder(tasks);
    SessionOrderSpec(tasks);
    WalkSpec(sessions, links);
    var starts := StartTasks(sessions, links);
    if links != [] && starts != [] {
      var x := starts[0];
      assert Reached(links, starts, x) by {
        ElemsIn(starts);
      }
      assert x in Walk(sessions, links, TaskUniverse(sessions, links), starts, {}).0;
    }
  }

  /** Once some Session has no incoming link, the walk lists something, so
      a Session the walk cannot reach from such Sessions is dropped. */
  lemma UnreachedSessionDropped(tasks: seq<Task>, links: seq<Link>, x: string, z: string)
    requires Task(z, "Session") in tasks && forall l :: l in links ==> l.1 != z
    requires !Reached(links, StartTasks(SessionOrder(tasks), links), x)
    ensures links != [] ==> x !in WorkflowSessions(tasks, links)
  {
    SessionOrderSpec(tasks);
    WorkflowSessionsSpec(tasks, links);
    assert z in StartTasks(SessionOrder(tasks), links);
  }

  /** Three tasks: the Start task, which feeds `s_load`, and `s_report`,
      which nothing feeds. */
  const ExampleTasks: seq<Task> := [Task("Start", "Start"), Task("s_load", "Session"), Task("s_report", "Session")]
  const ExampleLinks: seq<Link> := [("Start", "s_load")]

  lemma ExampleSessions()
    ensures SessionOrder(ExampleTasks) == ["s_load", "s_report"]
  {
    var names := SessionTaskNames(ExampleTasks);
    assert names == ["s_load", "s_report"] by {
      assert ExampleTasks[1..][1..][1..] == [];
    }
    var one: seq<string> := ["s_load"];
    assert names[..1] == one && one[..0] == [];
    assert AddAll([], one) == one;
    assert "s_report" !in one;
  }

  lemma ExampleStarts()
    ensures "s_report" in SessionOrder(ExampleTasks)
    ensures Elems(StartTasks(SessionOrder(ExampleTasks), ExampleLinks)) == {"s_report"}
  {
    ExampleSessions();
    var starts := StartTasks(["s_load", "s_report"], ExampleLinks);
    assert starts == ["s_report"] by {
      assert ExampleLinks[0] in ExampleLinks;
    }
    ElemsIn(starts);
  }

  /** A Session reachable only from a non-Session task (here the workflow's
      Start task) is dropped as soon as another Session has no incoming
      link: the walk starts from Sessions only, and lists that one. */
  lemma StartTaskSessionDropped()
    ensures "s_report" in WorkflowSessions(ExampleTasks, ExampleLinks)
    ensures "s_load" !in WorkflowSessions(ExampleTasks, ExampleLinks)
  {
    var starts := StartTasks(SessionOrder(ExampleTasks), ExampleLinks);
    ExampleStarts();
    assert Reached(ExampleLinks, starts, "s_report");
    assert !Reached(ExampleLinks, starts, "s_load") by {
      assert LinkClosed(ExampleLinks, {"s_report"});
    }
    assert Task("s_report", "Session") == ExampleTasks[2];
    UnreachedSessionDropped(ExampleTasks, ExampleLinks, "s_load", "s_report");
    WorkflowSessionsSpec(ExampleTasks, ExampleLinks);
  }
}
