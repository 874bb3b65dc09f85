/** The column lineage edges built from the traced chains: SQL overrides
    of Source Qualifiers, stored procedure calls, source definitions, and
    for every other step the source found behind each input. */
module InfaEdges {
  import opened Basics
  import opened Text
  import opened OrderedMap
  import opened InfaModel
  import opened InfaSql
  import opened InfaLineage

  /** The SQL parser, whose parse of a query the resolution rules work on. */
  type SqlParser = string -> SqlParse

  /** The folder's sources as the SQL parser sees them: each name with its field names. */
  function SourceTablesOf(f: Folder): (r: SourceTables)
    ensures Keys(r) == Keys(f.sources)
    ensures forall i :: 0 <= i < |r| ==> r[i].1 == Keys(f.sources[i].1.fields)
  {
    seq(|f.sources|, i requires 0 <= i < |f.sources| => (f.sources[i].0, Keys(f.sources[i].1.fields)))
  }

  /** The edge a resolved SQL column gives, at confidence 0.95. */
  function SqlEdge(sd: TableDef, column: string, expression: Option<string>, table: string, col: string, order: nat): Edge {
    Edge(DatasetName(sd), column, table, col, SourceQualifier, expression, 95, order)
  }

  /** The edges of the upstream columns that name a folder source. */
  function UpstreamEdges(f: Folder, ups: seq<(string, string)>, expression: Option<string>, table: string, col: string, order: nat): seq<Edge>
    decreases |ups|
  {
    if ups == [] then []
    else
      var own := match Get(f.sources, ups[0].0)
        case None => []
        case Some(sd) => [SqlEdge(sd, ups[0].1, expression, table, col, order)];
      own + UpstreamEdges(f, ups[1..], expression, table, col, order)
  }

  /** The edges of the lineage results whose output is the target column, ignoring case. */
  function SqlEdges(f: Folder, results: seq<ColumnLineage>, table: string, col: string, order: nat): seq<Edge>
    decreases |results|
  {
    if results == [] then []
    else
      var c := results[0];
      (if Upper(c.output) == Upper(col) then UpstreamEdges(f, c.upstream, c.expression, table, col, order) else []) +
      SqlEdges(f, results[1..], table, col, order)
  }

  /** The single wildcard edge of a procedure: every column of the target
      may come from it. `verb` is `CALL` or `EXEC`. */
  function ProcEdge(verb: string, schema: string, name: string, table: string, col: string, order: nat): Edge {
    Edge(QualifiedName(schema, name), "*", table, col, StoredProcedure, Some(Invocation(verb, schema, name)), 100, order)
  }

  /** The expression recorded for a procedure edge: `CALL [schema.]name` or `EXEC [schema.]name`. */
  function Invocation(verb: string, schema: string, name: string): string {
    verb + " " + QualifiedName(schema, name)
  }

  /** `_parse_sql_lineage`: a detected procedure call gives its wildcard
      edge and nothing else; otherwise the parsed query's columns feeding
      the target column give one edge per upstream folder source column. */
  function ParseSqlLineage(f: Folder, parser: SqlParser, sql: string, table: string, col: string, step: Step): seq<Edge> {
    match DetectStoredProcedureCall(sql)
    case Some(pc) => [ProcEdge("CALL", pc.schema, pc.name, table, col, step.stepOrder)]
    case None => SqlEdges(f, ParseSql(parser(sql), SourceTablesOf(f)), table, col, step.stepOrder)
  }

  /** The procedure's schema, `""` when unset. */
  function OwnerSchema(t: TransformationInfo): string {
    if Truthy(t.procSchema) then t.procSchema.value else ""
  }

  /** `_build_stored_proc_lineage`: one wildcard edge when the
      transformation names a procedure. */
  function StoredProcLineage(trans: Option<TransformationInfo>, table: string, col: string, step: Step): seq<Edge> {
    if trans.Some? && Truthy(trans.value.procName) then
      [ProcEdge("EXEC", OwnerSchema(trans.value), trans.value.procName.value, table, col, step.stepOrder)]
    else []
  }

  /** The edge a Source Definition step gives for one of its inputs. */
  function SourceDefEdge(sd: TableDef, td: TableDef, col: string, step: Step, input: Port): Edge {
    Edge(DatasetName(sd), input.1, DatasetName(td), col, step.kind, step.expression, 100, step.stepOrder)
  }

  /** The edges of the inputs of an ordinary step whose source the search finds. */
  function FoundEdges(m: Mapping, f: Folder, td: TableDef, col: string, step: Step, inputs: seq<Port>): seq<Edge>
    decreases |inputs|
  {
    if inputs == [] then []
    else
      var own := match FindSourceForInstance(m, f, inputs[0])
        case None => []
        case Some(src) => [Edge(src.0, src.1, DatasetName(td), col, step.kind, step.expression, 100, step.stepOrder)];
      own + FoundEdges(m, f, td, col, step, inputs[1..])
  }

  /** The edges one step of a chain contributes for the target column
      `table.col`, by the kind of the step's instance. */
  function StepEdges(m: Mapping, f: Folder, parser: SqlParser, td: TableDef, table: string, col: string, step: Step): seq<Edge> {
    match Get(m.instances, step.instanceName)
    case None => []
    case Some(inst) =>
      var trans := GetTransformation(m, f, inst);
      if inst.kind == SourceQualifier && trans.Some? && Truthy(trans.value.sqlQuery) then
        ParseSqlLineage(f, parser, trans.value.sqlQuery.value, table, col, step)
      else if inst.kind == StoredProcedure then
        StoredProcLineage(trans, table, col, step)
      else if inst.kind == SourceDefinition then
        match Get(f.sources, inst.transformationName)
        case None => []
        case Some(sd) => seq(|step.inputs|, k requires 0 <= k < |step.inputs| => SourceDefEdge(sd, td, col, step, step.inputs[k]))
      else
        FoundEdges(m, f, td, col, step, step.inputs)
  }

  /** The edges of every step of one chain, in chain order. */
  function ChainEdges(m: Mapping, f: Folder, parser: SqlParser, td: TableDef, table: string, col: string, chain: seq<Step>): seq<Edge>
    decreases |chain|
  {
    if chain == [] then []
    else StepEdges(m, f, parser, td, table, col, chain[0]) + ChainEdges(m, f, parser, td, table, col, chain[1..])
  }

  /** The edges of one stored chain: its key is split at the first dot into
      target table and column, and a key naming no target definition gives none. */
  function KeyEdges(m: Mapping, f: Folder, parser: SqlParser, key: string, chain: seq<Step>): seq<Edge> {
    match SplitFirst(key, '.')
    case None => []
    case Some(parts) =>
      match Get(f.targets, parts.0)
      case None => []
      case Some(td) => ChainEdges(m, f, parser, td, parts.0, parts.1, chain)
  }

  function EntriesEdges(m: Mapping, f: Folder, parser: SqlParser, entries: seq<(string, seq<Step>)>): seq<Edge>
    decreases |entries|
  {
    if entries == [] then []
    else KeyEdges(m, f, parser, entries[0].0, entries[0].1) + EntriesEdges(m, f, parser, entries[1..])
  }

  /** `build_column_lineage_edges`: the edges of every stored chain, in key order. */
  function BuildColumnLineageEdges(m: Mapping, f: Folder, parser: SqlParser): seq<Edge> {
    EntriesEdges(m, f, parser, BuildMappingLineage(m, f))
  }

  /** `e` is the edge of upstream column `u` of lineage result `c`. */
  predicate SqlEdgeOf(f: Folder, c: ColumnLineage, u: (string, string), table: string, col: string, order: nat, e: Edge) {
    u in c.upstream && Get(f.sources, u.0).Some? && e == SqlEdge(Get(f.sources, u.0).value, u.1, c.expression, table, col, order)
  }

  lemma {:induction false} UpstreamEdgesSpec(f: Folder, c: ColumnLineage, ups: seq<(string, string)>, table: string, col: string, order: nat)
    requires forall u :: u in ups ==> u in c.upstream
    ensures forall e :: e in UpstreamEdges(f, ups, c.expression, table, col, order) <==>
      exists u :: u in ups && SqlEdgeOf(f, c, u, table, col, order, e)
    decreases |ups|
  {
    if ups != [] {
      UpstreamEdgesSpec(f, c, ups[1..], table, col, order);
      forall e ensures e in UpstreamEdges(f, ups, c.expression, table, col, order) <==>
        exists u :: u in ups && SqlEdgeOf(f, c, u, table, col, order, e)
      {
        if e in UpstreamEdges(f, ups, c.expression, table, col, order) && e !in UpstreamEdges(f, ups[1..], c.expression, table, col, order) {
          assert SqlEdgeOf(f, c, ups[0], table, col, order, e);
        }
        if exists u :: u in ups && SqlEdgeOf(f, c, u, table, col, order, e) {
          var u :| u in ups && SqlEdgeOf(f, c, u, table, col, order, e);
          if u != ups[0] {
            assert u in ups[1..];
          }
        }
      }
    }
  }

  /** The SQL-derived edges: exactly one per upstream column that names a
      folder source, of each result whose output is the target column
      ignoring case. */
  lemma {:induction false} SqlEdgesSpec(f: Folder, results: seq<ColumnLineage>, table: string, col: string, order: nat)
    ensures forall e :: e in SqlEdges(f, results, table, col, order) <==>
      exists c, u :: c in results && EqualsIgnoreCase(c.output, col) && SqlEdgeOf(f, c, u, table, col, order, e)
    decreases |results|
  {
    if results != [] {
      var c := results[0];
      SqlEdgesSpec(f, results[1..], table, col, order);
      UpstreamEdgesSpec(f, c, c.upstream, table, col, order);
      forall e ensures e in SqlEdges(f, results, table, col, order) <==>
        exists c, u :: c in results && EqualsIgnoreCase(c.output, col) && SqlEdgeOf(f, c, u, table, col, order, e)
      {
        if exists c', u :: c' in results && EqualsIgnoreCase(c'.output, col) && SqlEdgeOf(f, c', u, table, col, order, e) {
          var c', u :| c' in results && EqualsIgnoreCase(c'.output, col) && SqlEdgeOf(f, c', u, table, col, order, e);
          if c' != c {
            assert c' in results[1..];
          }
        }
      }
    }
  }

  /** The SQL override of a Source Qualifier that calls a procedure
      yields exactly the wildcard `CALL` edge of that procedure. */
  lemma ParseSqlProcCall(f: Folder, parser: SqlParser, sql: string, table: string, col: string, step: Step, pc: ProcCall)
    requires DetectStoredProcedureCall(sql) == Some(pc)
    ensures var r := ParseSqlLineage(f, parser, sql, table, col, step);
      |r| == 1 && r[0].sourceColumn == "*" && r[0].kind == StoredProcedure &&
      r[0].sourceDataset == QualifiedName(pc.schema, pc.name) && r[0].expression == Some(Invocation("CALL", pc.schema, pc.name)) &&
      r[0].targetDataset == table && r[0].targetColumn == col && r[0].confidence == 100
  {
  }

  /** Otherwise every edge is a 0.95-confidence Source Qualifier edge into
      the target column, one per upstream folder-source column of a parsed
      result for that column. */
  lemma ParseSqlQuery(f: Folder, parser: SqlParser, sql: string, table: string, col: string, step: Step)
    requires DetectStoredProcedureCall(sql).None?
    ensures var r := ParseSqlLineage(f, parser, sql, table, col, step);
      var results := ParseSql(parser(sql), SourceTablesOf(f));
      (forall e :: e in r ==> e.kind == SourceQualifier && e.confidence == 95 && e.targetDataset == table && e.targetColumn == col) &&
      (forall e :: e in r <==> exists c, u :: c in results && EqualsIgnoreCase(c.output, col) && SqlEdgeOf(f, c, u, table, col, step.stepOrder, e))
  {
    SqlEdgesSpec(f, ParseSql(parser(sql), SourceTablesOf(f)), table, col, step.stepOrder);
  }

  /** A Stored Procedure step yields one wildcard `EXEC` edge exactly when
      its transformation names a procedure, and the edge's source dataset
      splits back into the schema and the procedure name. */
  lemma StoredProcLineageSpec(trans: Option<TransformationInfo>, table: string, col: string, step: Step)
    ensures var r := StoredProcLineage(trans, table, col, step);
      (|r| == 1 <==> trans.Some? && Truthy(trans.value.procName)) && |r| <= 1 &&
      (|r| == 1 ==> (r[0].sourceColumn == "*" && r[0].kind == StoredProcedure && r[0].targetDataset == table &&
        r[0].targetColumn == col && r[0].stepOrder == step.stepOrder && r[0].confidence == 100 &&
        r[0].expression == Some(Invocation("EXEC", OwnerSchema(trans.value), trans.value.procName.value))))
    ensures var r := StoredProcLineage(trans, table, col, step);
      |r| == 1 && '.' !in trans.value.procName.value ==>
        if Truthy(trans.value.procSchema) then
          SplitLast(r[0].sourceDataset, '.') == Some((trans.value.procSchema.value, trans.value.procName.value))
        else r[0].sourceDataset == trans.value.procName.value
  {
    if trans.Some? && Truthy(trans.value.procName) {
      if '.' !in trans.value.procName.value {
        QualifiedNameSplits(OwnerSchema(trans.value), trans.value.procName.value);
      }
    }
  }

  /** `e` is the edge of input `q` of an ordinary step, from the source the search finds behind it. */
  predicate FoundEdgeOf(m: Mapping, f: Folder, td: TableDef, col: string, step: Step, q: Port, e: Edge) {
    FindSourceForInstance(m, f, q).Some? &&
    e == Edge(FindSourceForInstance(m, f, q).value.0, FindSourceForInstance(m, f, q).value.1, DatasetName(td), col, step.kind, step.expression, 100, step.stepOrder)
  }

  /** An ordinary step's edges: one per input whose source the search finds. */
  lemma {:induction false} FoundEdgesSpec(m: Mapping, f: Folder, td: TableDef, col: string, step: Step, inputs: seq<Port>)
    ensures forall e :: e in FoundEdges(m, f, td, col, step, inputs) <==> exists q :: q in inputs && FoundEdgeOf(m, f, td, col, step, q, e)
    decreases |inputs|
  {
    if inputs != [] {
      FoundEdgesSpec(m, f, td, col, step, inputs[1..]);
      forall e ensures e in FoundEdges(m, f, td, col, step, inputs) <==> exists q :: q in inputs && FoundEdgeOf(m, f, td, col, step, q, e) {
        if e in FoundEdges(m, f, td, col, step, inputs) && e !in FoundEdges(m, f, td, col, step, inputs[1..]) {
          assert FoundEdgeOf(m, f, td, col, step, inputs[0], e);
        }
        if exists q :: q in inputs && FoundEdgeOf(m, f, td, col, step, q, e) {
          var q :| q in inputs && FoundEdgeOf(m, f, td, col, step, q, e);
          if q != inputs[0] {
            assert q in inputs[1..];
          }
        }
      }
    }
  }

  /** What every edge of a step says about its target: the column is the
      target column, the dataset is the raw target table for SQL and
      procedure edges and the target definition's dataset name otherwise,
      and the confidence is 0.95 for SQL-derived edges and 1.0 otherwise. */
  predicate EdgeTargets(td: TableDef, table: string, col: string, e: Edge) {
    e.targetColumn == col &&
    (e.confidence == 95 || e.confidence == 100) &&
    (e.confidence == 95 ==> e.kind == SourceQualifier && e.targetDataset == table) &&
    (e.targetDataset == table || e.targetDataset == DatasetName(td))
  }

  lemma StepEdgesTargets(m: Mapping, f: Folder, parser: SqlParser, td: TableDef, table: string, col: string, step: Step)
    ensures forall e :: e in StepEdges(m, f, parser, td, table, col, step) ==> EdgeTargets(td, table, col, e)
  {
    match Get(m.instances, step.instanceName)
    case None =>
    case Some(inst) =>
      var trans := GetTransformation(m, f, inst);
      if inst.kind == SourceQualifier && trans.Some? && Truthy(trans.value.sqlQuery) {
        if DetectStoredProcedureCall(trans.value.sqlQuery.value).Some? {
          ParseSqlProcCall(f, parser, trans.value.sqlQuery.value, table, col, step, DetectStoredProcedureCall(trans.value.sqlQuery.value).value);
        } else {
          ParseSqlQuery(f, parser, trans.value.sqlQuery.value, table, col, step);
        }
      } else if inst.kind == StoredProcedure {
        StoredProcLineageSpec(trans, table, col, step);
      } else if inst.kind != SourceDefinition {
        FoundEdgesSpec(m, f, td, col, step, step.inputs);
      }
  }

  /** A Source Definition step of a defined source gives one edge per input,
      in input order, from the source's dataset and the input's column. */
  lemma SourceDefinitionEdges(m: Mapping, f: Folder, parser: SqlParser, td: TableDef, table: string, col: string, step: Step)
    requires Get(m.instances, step.instanceName).Some?
    requires Get(m.instances, step.instanceName).value.kind == SourceDefinition
    requires Get(f.sources, Get(m.instances, step.instanceName).value.transformationName).Some?
    ensures var r := StepEdges(m, f, parser, td, table, col, step);
      var sd := Get(f.sources, Get(m.instances, step.instanceName).value.transformationName).value;
      |r| == |step.inputs| &&
      forall k :: 0 <= k < |r| ==> (r[k].sourceDataset == DatasetName(sd) && r[k].sourceColumn == step.inputs[k].1 &&
        r[k].targetDataset == DatasetName(td) && r[k].targetColumn == col && r[k].kind == step.kind)
  {
  }

  /** An ordinary step's edges come exactly from the inputs whose source
      the breadth-first search finds, each from a source port reachable
      from that input. */
  lemma OrdinaryStepEdges(m: Mapping, f: Folder, parser: SqlParser, td: TableDef, table: string, col: string, step: Step)
    requires Get(m.instances, step.instanceName).Some?
    requires var inst := Get(m.instances, step.instanceName).value;
      inst.kind !in {SourceQualifier, StoredProcedure, SourceDefinition}
    ensures forall e :: e in StepEdges(m, f, parser, td, table, col, step) <==>
      exists q :: q in step.inputs && FoundEdgeOf(m, f, td, col, step, q, e)
  {
    FoundEdgesSpec(m, f, td, col, step, step.inputs);
  }

  lemma {:induction false} ChainEdgesSpec(m: Mapping, f: Folder, parser: SqlParser, td: TableDef, table: string, col: string, chain: seq<Step>)
    ensures forall e :: e in ChainEdges(m, f, parser, td, table, col, chain) <==>
      exists s :: s in chain && e in StepEdges(m, f, parser, td, table, col, s)
    ensures forall e :: e in ChainEdges(m, f, parser, td, table, col, chain) ==> EdgeTargets(td, table, col, e)
    decreases |chain|
  {
    if chain != [] {
      ChainEdgesSpec(m, f, parser, td, table, col, chain[1..]);
      StepEdgesTargets(m, f, parser, td, table, col, chain[0]);
      forall e ensures e in ChainEdges(m, f, parser, td, table, col, chain) <==>
        exists s :: s in chain && e in StepEdges(m, f, parser, td, table, col, s)
      {
        if exists s :: s in chain && e in StepEdges(m, f, parser, td, table, col, s) {
          var s :| s in chain && e in StepEdges(m, f, parser, td, table, col, s);
          if s != chain[0] {
            assert s in chain[1..];
          }
        }
      }
    }
  }

  /** A key built from a dot-free target name splits back into the target
      and the field, so its chain's edges are read against that target. */
  lemma KeyEdgesOfTarget(m: Mapping, f: Folder, parser: SqlParser, target: string, field: string, td: TableDef, chain: seq<Step>)
    requires '.' !in target && Get(f.targets, target) == Some(td)
    ensures KeyEdges(m, f, parser, VisitKey(target, field), chain) == ChainEdges(m, f, parser, td, target, field, chain)
  {
    SplitFirstOf(target, field, '.');
  }

  /** `e` is an edge of the chain stored under `key`, read against the
      target table and column the key splits into. */
  predicate KeyEdgeOf(m: Mapping, f: Folder, parser: SqlParser, key: string, chain: seq<Step>, e: Edge) {
    match SplitFirst(key, '.')
    case None => false
    case Some(parts) =>
      match Get(f.targets, parts.0)
      case None => false
      case Some(td) => exists s :: s in chain && e in StepEdges(m, f, parser, td, parts.0, parts.1, s)
  }

  lemma KeyEdgesSpec(m: Mapping, f: Folder, parser: SqlParser, key: string, chain: seq<Step>)
    ensures forall e :: e in KeyEdges(m, f, parser, key, chain) <==> KeyEdgeOf(m, f, parser, key, chain, e)
  {
    match SplitFirst(key, '.')
    case None =>
    case Some(parts) =>
      match Get(f.targets, parts.0)
      case None =>
      case Some(td) => ChainEdgesSpec(m, f, parser, td, parts.0, parts.1, chain);
  }

  lemma {:induction false} EntriesEdgesSpec(m: Mapping, f: Folder, parser: SqlParser, entries: seq<(string, seq<Step>)>)
    ensures forall e :: e in EntriesEdges(m, f, parser, entries) <==> exists x :: x in entries && KeyEdgeOf(m, f, parser, x.0, x.1, e)
    decreases |entries|
  {
    if entries != [] {
      EntriesEdgesSpec(m, f, parser, entries[1..]);
      KeyEdgesSpec(m, f, parser, entries[0].0, entries[0].1);
      forall e ensures e in EntriesEdges(m, f, parser, entries) <==> exists x :: x in entries && KeyEdgeOf(m, f, parser, x.0, x.1, e) {
        if exists x :: x in entries && KeyEdgeOf(m, f, parser, x.0, x.1, e) {
          var x :| x in entries && KeyEdgeOf(m, f, parser, x.0, x.1, e);
          if x != entries[0] {
            assert x in entries[1..];
          }
        }
      }
    }
  }

  /** The mapping's column lineage edges are exactly the step edges of the
      stored chains, each read against the target its key names. */
  lemma BuildColumnLineageEdgesSpec(m: Mapping, f: Folder, parser: SqlParser)
    ensures forall e :: e in BuildColumnLineageEdges(m, f, parser) <==>
      exists k :: k in Keys(BuildMappingLineage(m, f)) && KeyEdgeOf(m, f, parser, k, Get(BuildMappingLineage(m, f), k).value, e)
  {
    var lineage := BuildMappingLineage(m, f);
    EntriesEdgesSpec(m, f, parser, lineage);
    BuildMappingLineageKeys(m, f);
    forall e ensures e in BuildColumnLineageEdges(m, f, parser) <==>
      exists k :: k in Keys(lineage) && KeyEdgeOf(m, f, parser, k, Get(lineage, k).value, e)
    {
      EntryKeyIff(lineage, (k, c) => KeyEdgeOf(m, f, parser, k, c, e));
    }
  }

  /** Every edge of a mapping targets the column its chain's key names, with
      confidence 0.95 exactly for SQL-derived edges and 1.0 otherwise. */
  lemma BuildColumnLineageEdgesTargets(m: Mapping, f: Folder, parser: SqlParser)
    ensures forall e :: e in BuildColumnLineageEdges(m, f, parser) ==>
      exists k, table, td :: k in Keys(BuildMappingLineage(m, f)) && SplitFirst(k, '.') == Some((table, e.targetColumn)) &&
        Get(f.targets, table) == Some(td) && EdgeTargets(td, table, e.targetColumn, e)
  {
    var lineage := BuildMappingLineage(m, f);
    BuildColumnLineageEdgesSpec(m, f, parser);
    forall e | e in BuildColumnLineageEdges(m, f, parser)
      ensures exists k, table, td ::
                k in Keys(lineage) && SplitFirst(k, '.') == Some((table, e.targetColumn)) &&
                Get(f.targets, table) == Some(td) && EdgeTargets(td, table, e.targetColumn, e)
    {
      var k :| k in Keys(lineage) && KeyEdgeOf(m, f, parser, k, Get(lineage, k).value, e);
      KeyEdgeTargets(m, f, parser, k, Get(lineage, k).value, e);
    }
  }

  /** An edge drawn from the chain stored under `k` targets the column `k` names. */
  lemma KeyEdgeTargets(m: Mapping, f: Folder, parser: SqlParser, k: string, chain: seq<Step>, e: Edge)
    requires KeyEdgeOf(m, f, parser, k, chain, e)
    ensures exists table, td :: (SplitFirst(k, '.') == Some((table, e.targetColumn)) &&
      Get(f.targets, table) == Some(td) && EdgeTargets(td, table, e.targetColumn, e))
  {
    var parts := SplitFirst(k, '.').value;
    var td := Get(f.targets, parts.0).value;
    var s :| s in chain && e in StepEdges(m, f, parser, td, parts.0, parts.1, s);
    StepEdgesTargets(m, f, parser, td, parts.0, parts.1, s);
  }

  /** A target whose name holds a dot loses its key: the chain of field `C`
      of target `S.T` is stored under `S.T.C`, which splits into table `S`
      and column `T.C`. */
  lemma DottedTargetKey()
    ensures SplitFirst(VisitKey("S.T", "C"), '.') == Some(("S", "T.C"))
  {
    assert VisitKey("S.T", "C") == "S" + ['.'] + "T.C";
    SplitFirstOf("S", "T.C", '.');
  }
}
