/** The port graph of an exported Informatica mapping (`informatica_xml.py`):
    table references, the port-token heuristic for expressions, the
    connector index, and the bounded upstream search that resolves a target
    port to the source fields feeding it. */
module PortGraph {
  import opened Basics
  import opened Text
  import opened OrderedMap

  /** A physical table: optional database and schema, and the table name. */
  datatype TableRef = TableRef(db: Option<string>, schema: Option<string>, name: string, raw: string)

  /** `TableRef.fqn`: the reference's own database and schema, else the
      defaults, then the name; absent and empty parts are dropped. */
  function Fqn(t: TableRef, defaultDb: Option<string>, defaultSchema: Option<string>): string {
    Join(Present([OrElse(t.db, defaultDb), OrElse(t.schema, defaultSchema), Some(t.name)]), ".")
  }

  /** Splitting a qualified name at its dots gives back the parts that were
      present, when no part holds a dot. */
  lemma FqnParts(t: TableRef, defaultDb: Option<string>, defaultSchema: Option<string>)
    requires t.name != ""
    requires forall o :: o in [t.db, t.schema, defaultDb, defaultSchema] && o.Some? ==> '.' !in o.value
    requires '.' !in t.name
    ensures Split(Fqn(t, defaultDb, defaultSchema), '.')
            == Present([OrElse(t.db, defaultDb), OrElse(t.schema, defaultSchema), Some(t.name)])
  {
    var opts := [OrElse(t.db, defaultDb), OrElse(t.schema, defaultSchema), Some(t.name)];
    var parts := Present(opts);
    assert t.name in parts;
    forall k | 0 <= k < |parts| ensures '.' !in parts[k] {
      assert parts[k] in parts;
      assert Some(parts[k]) in opts;
    }
    SplitJoin(parts, '.');
  }

  /** A reference's own truthy database and schema win over any default. */
  lemma FqnOwnPartsWin(t: TableRef, d1: Option<string>, s1: Option<string>, d2: Option<string>, s2: Option<string>)
    requires Truthy(t.db) && Truthy(t.schema)
    ensures Fqn(t, d1, s1) == Fqn(t, d2, s2) == Join(Present([t.db, t.schema, Some(t.name)]), ".")
  {
  }

  /** `_clean`: absent for absent or whitespace-only text, else the stripped text. */
  function Clean(text: Option<string>): (r: Option<string>)
    ensures r.None? <==> text.None? || IsBlank(text.value)
    ensures r.Some? ==> r.value != [] && !IsSpace(r.value[0]) && !IsSpace(r.value[|r.value| - 1])
    ensures r.Some? ==> exists i, j :: 0 <= i <= j <= |text.value| && r.value == text.value[i..j]
  {
    if text.None? then None
    else
      StripSpec(text.value);
      var t := Strip(text.value);
      if t == [] then None else Some(t)
  }

  /** Cleaning cleaned text changes nothing. */
  lemma CleanIdempotent(text: Option<string>)
    ensures Clean(Clean(text)) == Clean(text)
  {
    if text.Some? {
      StripIdempotent(text.value);
    }
  }

  // ---- Port tokens of an expression ----

  /** The characters of `[A-Z0-9_$#]`. */
  predicate IsTokenChar(c: char) {
    IsUpperLetter(c) || IsDigit(c) || c == '_' || c == '$' || c == '#'
  }

  /** The names an expression is never taken to reference. */
  const FunctionWords: set<string> :=
    {"IIF", "DECODE", "NVL", "TO_DATE", "TO_CHAR", "SUBSTR", "CASE", "WHEN", "THEN", "ELSE", "END"}

  /** The last position `j` in `lo..k` with a word boundary, scanning down
      from `k`: where the greedy token run backs off to. */
  function LastBoundary(s: string, lo: nat, k: nat): (r: Option<nat>)
    requires lo <= k <= |s|
    ensures r.Some? ==> lo <= r.value <= k && WordBoundary(s, r.value)
    ensures r.Some? ==> forall j :: r.value < j <= k ==> !WordBoundary(s, j)
    ensures r.None? ==> forall j :: lo <= j <= k ==> !WordBoundary(s, j)
    decreases k
  {
    if WordBoundary(s, k) then Some(k)
    else if k == lo then None
    else LastBoundary(s, lo, k - 1)
  }

  /** A token spans `s[p..k]`: an upper-case letter after a word boundary,
      then token characters up to a word boundary. */
  predicate TokenSpan(s: string, p: nat, k: nat) {
    p < k <= |s| && IsUpperLetter(s[p]) && WordBoundary(s, p) && WordBoundary(s, k)
    && forall j :: p < j < k ==> IsTokenChar(s[j])
  }

  /** The matches of `\b([A-Z][A-Z0-9_$#]*)\b` from position `p` on, left to
      right, each scan resuming where the previous match ended. */
  function Tokens(s: string, p: nat): (r: seq<string>)
    requires p <= |s|
    decreases |s| - p
  {
    if p == |s| then []
    else if IsUpperLetter(s[p]) && WordBoundary(s, p) then
      var e := RunEnd(s, p + 1, IsTokenChar);
      match LastBoundary(s, p + 1, e)
      case Some(k) => [s[p..k]] + Tokens(s, k)
      case None => Tokens(s, p + 1)
    else Tokens(s, p + 1)
  }

  /** Every match is a token span of the text at or after `p`. */
  lemma {:induction false} TokensSound(s: string, p: nat, t: string)
    requires p <= |s| && t in Tokens(s, p)
    ensures exists q: nat, k: nat :: TokenSpan(s, q, k) && p <= q && t == s[q..k]
    decreases |s| - p
  {
    if IsUpperLetter(s[p]) && WordBoundary(s, p) {
      var e := RunEnd(s, p + 1, IsTokenChar);
      match LastBoundary(s, p + 1, e)
      case Some(k) =>
        if t == s[p..k] {
          assert TokenSpan(s, p, k);
        } else {
          TokensSound(s, k, t);
        }
      case None =>
        TokensSound(s, p + 1, t);
    } else {
      TokensSound(s, p + 1, t);
    }
  }

  /** A token is an upper-case letter followed by token characters, so it
      holds no lower-case letter. */
  lemma TokenShape(s: string, t: string)
    requires t in Tokens(s, 0)
    ensures t != [] && IsUpperLetter(t[0]) && forall i :: 0 <= i < |t| ==> IsTokenChar(t[i]) && !IsLowerLetter(t[i])
  {
    TokensSound(s, 0, t);
  }

  /** `extract_port_references`: the tokens of an expression, minus the
      function words. */
  function PortReferences(expr: string): (r: set<string>)
    ensures forall t :: t in r ==> t !in FunctionWords && t in Tokens(expr, 0)
    ensures forall t :: t in Tokens(expr, 0) && t !in FunctionWords ==> t in r
  {
    set t | t in Tokens(expr, 0) && t !in FunctionWords
  }

  /** No token starting before `p` runs past it when the character before
      `p` cannot be part of a token, so the scan reaches `p`. */
  lemma {:induction false} TokensReach(s: string, q: nat, p: nat)
    requires q <= p <= |s|
    requires p == 0 || !IsTokenChar(s[p - 1])
    ensures forall t :: t in Tokens(s, p) ==> t in Tokens(s, q)
    decreases p - q
  {
    if q < p {
      if IsUpperLetter(s[q]) && WordBoundary(s, q) {
        var e := RunEnd(s, q + 1, IsTokenChar);
        assert e <= p;
        match LastBoundary(s, q + 1, e)
        case Some(k) =>
          TokensReach(s, k, p);
        case None =>
          TokensReach(s, q + 1, p);
      } else {
        TokensReach(s, q + 1, p);
      }
    }
  }

  /** A whole word of upper-case letters, digits and underscores that starts
      with a letter and has neither a word character nor `$`/`#` on either
      side is a token. */
  lemma WholeWordIsToken(s: string, p: nat, k: nat)
    requires p < k <= |s| && IsUpperLetter(s[p])
    requires forall j :: p < j < k ==> IsUpperLetter(s[j]) || IsDigit(s[j]) || s[j] == '_'
    requires p == 0 || (!IsWordChar(s[p - 1]) && !IsTokenChar(s[p - 1]))
    requires k == |s| || (!IsWordChar(s[k]) && !IsTokenChar(s[k]))
    ensures s[p..k] in Tokens(s, 0)
  {
    RunEndAt(s, p + 1, k, IsTokenChar);
    assert WordBoundary(s, k);
    TokensReach(s, 0, p);
  }

  const QuotedExample := "IIF(X > 10, 'VIP', 'ACTIVE')"

  /** A whole word that is not a function word is a reference. */
  lemma WholeWordIsReference(s: string, p: nat, k: nat)
    requires p < k <= |s| && IsUpperLetter(s[p])
    requires forall j :: p < j < k ==> IsUpperLetter(s[j]) || IsDigit(s[j]) || s[j] == '_'
    requires p == 0 || (!IsWordChar(s[p - 1]) && !IsTokenChar(s[p - 1]))
    requires k == |s| || (!IsWordChar(s[k]) && !IsTokenChar(s[k]))
    requires s[p..k] !in FunctionWords
    ensures s[p..k] in PortReferences(s)
  {
    WholeWordIsToken(s, p, k);
  }

  /** Words inside a quoted literal are not told apart from port names: a
      quoted upper-case word that is not a function word is a reference. */
  lemma QuotedWordIsReference(s: string, p: nat, k: nat)
    requires 0 < p < k < |s| && IsQuote(s[p - 1]) && IsQuote(s[k]) && IsUpperLetter(s[p])
    requires forall j :: p < j < k ==> IsUpperLetter(s[j]) || IsDigit(s[j]) || s[j] == '_'
    requires s[p..k] !in FunctionWords
    ensures s[p..k] in PortReferences(s)
  {
    WholeWordIsReference(s, p, k);
  }

  lemma QuotedExampleVip()
    ensures "VIP" in PortReferences(QuotedExample)
  {
    var s := QuotedExample;
    assert s[12] == '\'' && s[13] == 'V' && s[14] == 'I' && s[15] == 'P' && s[16] == '\'';
    assert s[13..16] == "VIP";
    QuotedWordIsReference(s, 13, 16);
  }

  lemma QuotedExampleActive()
    ensures "ACTIVE" in PortReferences(QuotedExample)
  {
    var s := QuotedExample;
    assert s[19] == '\'' && s[26] == '\'' && s[20..26] == "ACTIVE";
    QuotedWordIsReference(s, 20, 26);
  }

  lemma QuotedExampleX()
    ensures "X" in PortReferences(QuotedExample)
  {
    var s := QuotedExample;
    assert s[3] == '(' && s[4] == 'X' && s[5] == ' ' && s[4..5] == "X";
    WholeWordIsReference(s, 4, 5);
  }

  /** The literals 'VIP' and 'ACTIVE' of the expression count as references
      alongside the port X, while the function name IIF does not. */
  lemma QuotedWordsCount()
    ensures {"X", "VIP", "ACTIVE"} <= PortReferences(QuotedExample)
    ensures "IIF" !in PortReferences(QuotedExample)
  {
    QuotedExampleX();
    QuotedExampleVip();
    QuotedExampleActive();
  }

  // ---- The connector graph ----

  /** An (instance, field) pair: one port of one transformation instance. */
  type PortId = (string, string)

  /** A connector from one port to another. */
  type Connector = (PortId, PortId)

  /** A transformation port: instance, field, direction, optional expression. */
  datatype Port = Port(instance: string, field: string, portType: string, expression: Option<string>)

  /** The parts of a parsed mapping the search reads: the source instances
      and their tables, the ports, and the connectors in document order. */
  datatype Mapping = Mapping(
    name: string,
    sources: map<string, TableRef>,
    targets: map<string, TableRef>,
    ports: map<PortId, Port>,
    connectors: seq<Connector>)

  /** Each connector as (to, from). */
  function Reversed(connectors: seq<Connector>): (r: seq<(PortId, PortId)>)
    ensures |r| == |connectors|
    ensures forall i :: 0 <= i < |r| ==> r[i] == (connectors[i].1, connectors[i].0)
  {
    seq(|connectors|, i requires 0 <= i < |connectors| => (connectors[i].1, connectors[i].0))
  }

  /** `build_connector_index`: every connector filed under its destination port. */
  function ConnectorIndex(connectors: seq<Connector>): OMap<PortId, seq<PortId>> {
    Group(Reversed(connectors))
  }

  /** The index has one entry per destination port, in first-seen order, and
      lists under it the origin of each connector into that port, once per
      connector, in connector order; a port nothing connects into is absent. */
  lemma ConnectorIndexSpec(connectors: seq<Connector>, to: PortId)
    ensures Valid(ConnectorIndex(connectors))
    ensures Keys(ConnectorIndex(connectors)) == Dedup(seq(|connectors|, i requires 0 <= i < |connectors| => connectors[i].1))
    ensures Get(ConnectorIndex(connectors), to).None? <==> forall c :: c in connectors ==> c.1 != to
    ensures Get(ConnectorIndex(connectors), to).Some? ==>
              Get(ConnectorIndex(connectors), to).value == Origins(connectors, to)
  {
    var pairs := Reversed(connectors);
    GroupKeys(pairs);
    GroupGet(pairs, to);
    assert Keys(pairs) == seq(|connectors|, i requires 0 <= i < |connectors| => connectors[i].1);
    assert to in Keys(pairs) <==> exists c :: c in connectors && c.1 == to by {
      if to in Keys(pairs) {
        var i :| 0 <= i < |pairs| && Keys(pairs)[i] == to;
        assert connectors[i] in connectors;
      }
      if exists c :: c in connectors && c.1 == to {
        var c :| c in connectors && c.1 == to;
        var i :| 0 <= i < |connectors| && connectors[i] == c;
        assert Keys(pairs)[i] == to;
      }
    }
    OriginsAre(connectors, to);
  }

  /** The origins of the connectors into `to`, in connector order. */
  function Origins(connectors: seq<Connector>, to: PortId): (r: seq<PortId>)
    ensures forall x :: x in r <==> (x, to) in connectors
    ensures r == [] <==> forall c :: c in connectors ==> c.1 != to
    ensures |r| <= |connectors|
    decreases |connectors|
  {
    if connectors == [] then []
    else
      var n := |connectors| - 1;
      assert forall c :: c in connectors <==> c in connectors[..n] || c == connectors[n];
      Origins(connectors[..n], to) + (if connectors[n].1 == to then [connectors[n].0] else [])
  }

  lemma {:induction false} OriginsAre(connectors: seq<Connector>, to: PortId)
    ensures ValuesFor(Reversed(connectors), to) == Origins(connectors, to)
    decreases |connectors|
  {
    if connectors != [] {
      var n := |connectors| - 1;
      OriginsAre(connectors[..n], to);
      assert Reversed(connectors)[..n] == Reversed(connectors[..n]);
    }
  }

  /** The references of a port's expression, if it has one. */
  function PortRefs(m: Mapping, p: PortId): set<string> {
    if p in m.ports && Truthy(m.ports[p].expression) then PortReferences(m.ports[p].expression.value) else {}
  }

  /** What the search pushes when it expands `p`: nothing at a source
      instance, otherwise the origins of the connectors into `p` and the
      same instance's ports that `p`'s expression references. */
  function Next(m: Mapping, p: PortId): set<PortId> {
    if p.0 in m.sources then {}
    else Elems(Origins(m.connectors, p)) + set r | r in PortRefs(m, p) :: (p.0, r)
  }

  /** No pair outside `s` is one step from a pair inside it. */
  ghost predicate Closed(m: Mapping, s: set<PortId>) {
    forall p :: p in s ==> Next(m, p) <= s
  }

  /** `x` is reachable from `start`: it lies in every closed set holding `start`. */
  ghost predicate Reaches(m: Mapping, start: PortId, x: PortId) {
    forall s :: Closed(m, s) && start in s ==> x in s
  }

  /** Every pair the search can ever push. */
  function Universe(m: Mapping, start: PortId): set<PortId> {
    {start} + (set c | c in m.connectors :: c.0)
    + (set p, r | p in m.ports && r in PortRefs(m, p) :: (p.0, r))
  }

  lemma NextInUniverse(m: Mapping, start: PortId, p: PortId)
    ensures Next(m, p) <= Universe(m, start)
  {
    if p.0 !in m.sources {
      ElemsIn(Origins(m.connectors, p));
      forall x | x in Next(m, p) ensures x in Universe(m, start) {
        if x in Elems(Origins(m.connectors, p)) {
          assert (x, p) in m.connectors;
        } else {
          var r :| r in PortRefs(m, p) && x == (p.0, r);
          assert p in m.ports;
        }
      }
    }
  }

  lemma ReachesStep(m: Mapping, start: PortId, x: PortId, y: PortId)
    requires Reaches(m, start, x) && y in Next(m, x)
    ensures Reaches(m, start, y)
  {
  }

  /** The pairs one expansion of `x` pushes, in some order: the connector
      origins from the index, then the referenced ports of the instance in
      the order of a Python set. */
  method Expand(m: Mapping, index: OMap<PortId, seq<PortId>>, x: PortId) returns (pushed: seq<PortId>)
    requires index == ConnectorIndex(m.connectors) && x.0 !in m.sources
    ensures forall y :: y in pushed <==> y in Next(m, x)
  {
    ConnectorIndexSpec(m.connectors, x);
    var ups := GetOr(index, x, []);
    assert ups == Origins(m.connectors, x);
    var refs := SetToSeq(set r | r in PortRefs(m, x) :: (x.0, r));
    ElemsIn(ups);
    ElemsIn(refs);
    pushed := ups + refs;
  }

  /** Every pending pair can be pushed and is reachable. */
  ghost predicate Pending(m: Mapping, start: PortId, frontier: seq<PortId>) {
    forall i :: 0 <= i < |frontier| ==> frontier[i] in Universe(m, start) && Reaches(m, start, frontier[i])
  }

  /** Every step out of a visited pair lands on a visited or a pending pair. */
  ghost predicate Explored(m: Mapping, visited: set<PortId>, frontier: seq<PortId>) {
    forall x, y :: x in visited && y in Next(m, x) ==> y in visited || y in frontier
  }

  lemma PushPending(m: Mapping, start: PortId, frontier: seq<PortId>, x: PortId, pushed: seq<PortId>)
    requires Pending(m, start, frontier) && Reaches(m, start, x)
    requires forall y :: y in pushed <==> y in Next(m, x)
    ensures Pending(m, start, frontier + pushed)
  {
    NextInUniverse(m, start, x);
    forall i | 0 <= i < |pushed| ensures pushed[i] in Universe(m, start) && Reaches(m, start, pushed[i]) {
      assert pushed[i] in pushed;
      ReachesStep(m, start, x, pushed[i]);
    }
  }

  lemma PopExplored(m: Mapping, visited: set<PortId>, frontier: seq<PortId>, x: PortId, pushed: seq<PortId>)
    requires frontier != [] && x == frontier[|frontier| - 1]
    requires Explored(m, visited, frontier)
    requires x in visited || forall y :: y in pushed <==> y in Next(m, x)
    ensures Explored(m, visited + {x}, frontier[..|frontier| - 1] + pushed)
  {
    var rest := frontier[..|frontier| - 1];
    assert forall y :: y in frontier ==> y in rest || y == x by {
      assert frontier == rest + [x];
    }
  }

  /** A search that ends with nothing pending has visited everything reachable. */
  lemma ExploredComplete(m: Mapping, start: PortId, visited: set<PortId>)
    requires Explored(m, visited, []) && start in visited
    ensures forall x :: Reaches(m, start, x) ==> x in visited
  {
    assert Closed(m, visited);
  }

  /** The state of the search between two pops: visited pairs are counted
      by `hops` and reachable; pending pairs are reachable; before the first
      pop only the start is pending; without a cut-off every step out of a
      visited pair is visited or pending. */
  ghost predicate SearchState(m: Mapping, start: PortId, maxHops: int, visited: set<PortId>,
                              frontier: seq<PortId>, hops: int, truncated: bool) {
    && hops == |visited| && visited <= Universe(m, start)
    && (visited == {} ==> frontier == [start] && !truncated)
    && (visited != {} ==> start in visited)
    && (forall x :: x in visited ==> Reaches(m, start, x))
    && Pending(m, start, frontier)
    && (truncated ==> hops == Max(maxHops, 0) + 1)
    && (!truncated ==> hops <= Max(maxHops, 0))
    && (!truncated ==> Explored(m, visited, frontier))
  }

  /** Popping a pair visited before changes nothing else. */
  lemma SkipKeepsState(m: Mapping, start: PortId, maxHops: int, visited: set<PortId>, frontier: seq<PortId>, hops: int)
    requires SearchState(m, start, maxHops, visited, frontier, hops, false) && frontier != []
    requires frontier[|frontier| - 1] in visited
    ensures SearchState(m, start, maxHops, visited, frontier[..|frontier| - 1], hops, false)
  {
    var rest := frontier[..|frontier| - 1];
    PopExplored(m, visited, frontier, frontier[|frontier| - 1], []);
    assert visited + {frontier[|frontier| - 1]} == visited && rest + [] == rest;
  }

  /** Visiting a new pair counts it and moves it out of the unvisited part. */
  lemma VisitShrinks(m: Mapping, start: PortId, visited: set<PortId>, x: PortId)
    requires x in Universe(m, start) && x !in visited
    ensures |Universe(m, start) - (visited + {x})| < |Universe(m, start) - visited|
    ensures |visited + {x}| == |visited| + 1
  {
    var u := Universe(m, start);
    assert u - visited == (u - (visited + {x})) + {x};
  }

  /** Visiting a new pair keeps the visited pairs reachable, counted and
      holding the start, and leaves the rest of the stack pending. */
  lemma VisitKeepsFacts(m: Mapping, start: PortId, maxHops: int, visited: set<PortId>, frontier: seq<PortId>, hops: int)
    requires SearchState(m, start, maxHops, visited, frontier, hops, false) && frontier != []
    requires frontier[|frontier| - 1] !in visited
    ensures var x := frontier[|frontier| - 1];
      |visited + {x}| == hops + 1 && visited + {x} <= Universe(m, start) && start in visited + {x} &&
      (forall y :: y in visited + {x} ==> Reaches(m, start, y)) &&
      Pending(m, start, frontier[..|frontier| - 1]) && Reaches(m, start, x) && hops <= Max(maxHops, 0)
  {
    VisitShrinks(m, start, visited, frontier[|frontier| - 1]);
    PopPending(m, start, frontier);
  }

  /** Popping keeps the rest of the stack pending. */
  lemma PopPending(m: Mapping, start: PortId, frontier: seq<PortId>)
    requires Pending(m, start, frontier) && frontier != []
    ensures Pending(m, start, frontier[..|frontier| - 1])
  {
    var rest := frontier[..|frontier| - 1];
    forall i | 0 <= i < |rest| ensures rest[i] in Universe(m, start) && Reaches(m, start, rest[i]) {
      assert frontier[i] == rest[i];
    }
  }

  /** Visiting a new pair past the cut-off ends the search. */
  lemma CutKeepsState(m: Mapping, start: PortId, maxHops: int, visited: set<PortId>, frontier: seq<PortId>, hops: int)
    requires SearchState(m, start, maxHops, visited, frontier, hops, false) && frontier != []
    requires frontier[|frontier| - 1] !in visited && hops + 1 > maxHops
    ensures SearchState(m, start, maxHops, visited + {frontier[|frontier| - 1]}, frontier[..|frontier| - 1], hops + 1, true)
  {
    var x := frontier[|frontier| - 1];
    var rest := frontier[..|frontier| - 1];
    VisitKeepsFacts(m, start, maxHops, visited, frontier, hops);
  }

  /** Visiting a new pair within the cut-off pushes exactly its next pairs
      (none at a source instance). */
  lemma ExpandKeepsState(m: Mapping, start: PortId, maxHops: int, visited: set<PortId>, frontier: seq<PortId>,
                         hops: int, pushed: seq<PortId>)
    requires SearchState(m, start, maxHops, visited, frontier, hops, false) && frontier != []
    requires frontier[|frontier| - 1] !in visited && hops + 1 <= maxHops
    requires forall y :: y in pushed <==> y in Next(m, frontier[|frontier| - 1])
    ensures SearchState(m, start, maxHops, visited + {frontier[|frontier| - 1]}, frontier[..|frontier| - 1] + pushed, hops + 1, false)
  {
    var x := frontier[|frontier| - 1];
    var rest := frontier[..|frontier| - 1];
    VisitKeepsFacts(m, start, maxHops, visited, frontier, hops);
    PushPending(m, start, rest, x, pushed);
    PopExplored(m, visited, frontier, x, pushed);
  }

  /** One pass of the search loop: pop the last pending pair and, unless it
      was visited before, visit it, stop when the count passes `maxHops`,
      and otherwise push its next pairs. */
  method SearchStep(m: Mapping, index: OMap<PortId, seq<PortId>>, start: PortId, maxHops: int,
                    visited: set<PortId>, frontier: seq<PortId>, hops: int)
    returns (visited': set<PortId>, frontier': seq<PortId>, hops': int, truncated': bool)
    requires index == ConnectorIndex(m.connectors)
    requires SearchState(m, start, maxHops, visited, frontier, hops, false) && frontier != []
    ensures SearchState(m, start, maxHops, visited', frontier', hops', truncated')
    ensures |Universe(m, start) - visited'| < |Universe(m, start) - visited|
            || (visited' == visited && |frontier'| < |frontier|)
  {
    var x := frontier[|frontier| - 1];
    var rest := frontier[..|frontier| - 1];
    if x in visited {
      SkipKeepsState(m, start, maxHops, visited, frontier, hops);
      return visited, rest, hops, false;
    }
    VisitShrinks(m, start, visited, x);
    if hops + 1 > maxHops {
      CutKeepsState(m, start, maxHops, visited, frontier, hops);
      return visited + {x}, rest, hops + 1, true;
    }
    var pushed := [];
    if x.0 !in m.sources {
      pushed := Expand(m, index, x);
    } else {
      assert Next(m, x) == {};
    }
    ExpandKeepsState(m, start, maxHops, visited, frontier, hops, pushed);
    return visited + {x}, rest + pushed, hops + 1, false;
  }

  /** `resolve_upstream_source_fields`: a depth-first search from the target
      port, following connectors backwards and expression references within
      an instance, never expanding a source instance's port, and giving up
      once more than `maxHops` pairs have been visited.  Returns the visited
      pairs that sit on source instances, and the visited pairs themselves.
      The order in which the references of one expression are pushed is left
      open, as it follows a Python set. */
  method ResolveUpstreamSourceFields(m: Mapping, targetInstance: string, targetField: string, maxHops: int)
    returns (result: set<PortId>, visited: set<PortId>)
    ensures (targetInstance, targetField) in visited
    ensures |visited| <= Max(maxHops, 0) + 1
    ensures forall x :: x in result <==> x in visited && x.0 in m.sources
    ensures forall x :: x in visited ==> Reaches(m, (targetInstance, targetField), x)
    ensures |visited| <= maxHops ==> forall x :: Reaches(m, (targetInstance, targetField), x) ==> x in visited
    ensures |Universe(m, (targetInstance, targetField))| <= maxHops ==> |visited| <= maxHops
  {
    var start := (targetInstance, targetField);
    var index := ConnectorIndex(m.connectors);
    visited := {};
    var frontier := [start];
    var hops := 0;
    var truncated := false;
    while frontier != [] && !truncated
      invariant SearchState(m, start, maxHops, visited, frontier, hops, truncated)
      decreases |Universe(m, start) - visited|, |frontier|
    {
      visited, frontier, hops, truncated := SearchStep(m, index, start, maxHops, visited, frontier, hops);
    }
    if !truncated {
      ExploredComplete(m, start, visited);
    } else {
      SubsetCardinality(visited, Universe(m, start));
    }
    result := set x | x in visited && x.0 in m.sources;
  }

  /** The mapping of the parser test: a target port whose expression names an
      input port of the same instance that a source field is connected to. */
  const ExampleMapping := Mapping(
    "M1",
    map["SRC_INST" := TableRef(None, None, "SRC_T", "SRC_T")],
    map["TGT_INST" := TableRef(None, None, "TGT_T", "TGT_T")],
    map[("TGT_INST", "COL_A") := Port("TGT_INST", "COL_A", "OUTPUT", Some("SRC_COL")),
        ("SRC_INST", "SRC_COL") := Port("SRC_INST", "SRC_COL", "OUTPUT", None)],
    [(("SRC_INST", "SRC_COL"), ("TGT_INST", "SRC_COL"))])

  /** The source field is reachable from the target port, through the
      expression and then the connector, and it sits on a source instance. */
  lemma ExampleReachesSource()
    ensures "SRC_INST" in ExampleMapping.sources
    ensures Reaches(ExampleMapping, ("TGT_INST", "COL_A"), ("SRC_INST", "SRC_COL"))
  {
    var m := ExampleMapping;
    ExampleExpressionStep();
    ExampleConnectorStep();
    ReachesStep(m, ("TGT_INST", "COL_A"), ("TGT_INST", "COL_A"), ("TGT_INST", "SRC_COL"));
    ReachesStep(m, ("TGT_INST", "COL_A"), ("TGT_INST", "SRC_COL"), ("SRC_INST", "SRC_COL"));
  }

  /** The target port's expression names the input port `SRC_COL`. */
  lemma ExampleExpressionStep()
    ensures ("TGT_INST", "SRC_COL") in Next(ExampleMapping, ("TGT_INST", "COL_A"))
  {
    var s := "SRC_COL";
    WholeWordIsToken(s, 0, 7);
    assert s[0..7] == s;
    assert "SRC_COL" in PortRefs(ExampleMapping, ("TGT_INST", "COL_A"));
  }

  /** The connector leads from that input port back to the source field. */
  lemma ExampleConnectorStep()
    ensures ("SRC_INST", "SRC_COL") in Next(ExampleMapping, ("TGT_INST", "SRC_COL"))
  {
  }
}
