/** The Oracle operational runner (`oracle_runner.py`): the table
    references it reads out of observed SQL, its own table-name
    normaliser, one polling cycle over the statements fetched from V$SQL,
    and the job ids, dataset inputs/outputs and fine-grained mappings it
    derives from parsed stored procedures. Times are whole milliseconds. */
module OracleRunner {
  import opened Basics
  import opened Text
  import opened Scan
  import OracleProc

  // ---------------------------------------------------------------------
  // Table references

  /** A table reference is a non-empty run that starts and ends with a
      word character. */
  lemma TableRefShape(s: string, p: nat)
    requires OracleProc.TableRefAt(s, p).Some?
    ensures var v := OracleProc.TableRefAt(s, p).value.value;
      v != [] && IsWordChar(v[0]) && IsWordChar(v[|v| - 1])
  {
  }

  /** Every reference found has that shape. */
  lemma FoundRefShape(sql: string, x: string)
    requires x in OracleProc.TableRefs(sql)
    ensures x != [] && IsWordChar(x[0]) && IsWordChar(x[|x| - 1])
  {
    FindAllFrom(sql, 0, OracleProc.TableRefAt, x);
    var k, h :| 0 <= k <= |sql| && OracleProc.TableRefAt(sql, k) == Some(h) && h.value == x;
    TableRefShape(sql, k);
  }

  /** Stripping a found reference changes nothing. */
  lemma TableRefsUnspaced(sql: string)
    ensures forall x :: x in OracleProc.TableRefs(sql) ==> Strip(x) == x
  {
    forall x | x in OracleProc.TableRefs(sql)
      ensures Strip(x) == x
    {
      FoundRefShape(sql, x);
      StripUnspaced(x);
    }
  }

  /** `_extract_tables`: the stripped names after FROM, JOIN, INTO, UPDATE
      or MERGE INTO, in the case they were written. The pattern is the
      stored-procedure parser's table-reference pattern. */
  function ExtractTables(sql: string): (r: set<string>)
    ensures forall t :: t in r <==> t in OracleProc.TableRefs(sql)
  {
    TableRefsUnspaced(sql);
    set x | x in OracleProc.TableRefs(sql) :: Strip(x)
  }

  /** The stored-procedure parser sees the same references, upper-cased. */
  lemma ExtractTablesUpper(sql: string)
    ensures OracleProc.ExtractTablesFromSql(sql) == set t | t in ExtractTables(sql) :: Upper(t)
  {
  }

  /** Empty text references no table. */
  lemma ExtractTablesEmpty()
    ensures ExtractTables("") == {}
  {
    assert OracleProc.TableRefAt("", 0).None?;
    assert FindAll("", 1, OracleProc.TableRefAt) == [];
  }

  // ---------------------------------------------------------------------
  // Table names

  /** `_normalize_table`: a bare or schema-qualified name gains the
      present defaults as in the stored-procedure normaliser; a name of
      three or more parts keeps only its last three. */
  function NormalizeTable(table: string, defaultDb: Option<string>, defaultSchema: Option<string>): string {
    var parts := Split(table, '.');
    if |parts| == 1 then Join(Present([defaultDb, defaultSchema, Some(parts[0])]), ".")
    else if |parts| == 2 then Join(Present([defaultDb, Some(parts[0]), Some(parts[1])]), ".")
    else Join(parts[|parts| - 3..], ".")
  }

  /** On names of at most three parts the two normalisers agree (the
      stored-procedure one takes the schema default first). */
  lemma NormalizeAgreesUpToThree(table: string, defaultDb: Option<string>, defaultSchema: Option<string>)
    requires |Split(table, '.')| <= 3
    ensures NormalizeTable(table, defaultDb, defaultSchema) == OracleProc.NormalizeTableName(table, defaultSchema, defaultDb)
  {
    var parts := Split(table, '.');
    if |parts| == 3 {
      assert parts[|parts| - 3..] == parts;
      JoinSplit(table, '.');
    }
  }

  /** A name of three or more parts normalises to its last three. */
  lemma NormalizeKeepsLastThree(table: string, defaultDb: Option<string>, defaultSchema: Option<string>)
    requires |Split(table, '.')| >= 3
    ensures var parts := Split(table, '.');
      Split(NormalizeTable(table, defaultDb, defaultSchema), '.') == parts[|parts| - 3..]
  {
    var parts := Split(table, '.');
    LastThreeSplit(parts);
  }

  /** The last three of a run of dot-free parts, joined, split back. */
  lemma LastThreeSplit(parts: seq<string>)
    requires |parts| >= 3 && forall k :: 0 <= k < |parts| ==> '.' !in parts[k]
    ensures Split(Join(parts[|parts| - 3..], "."), '.') == parts[|parts| - 3..]
  {
    var last := parts[|parts| - 3..];
    assert forall k :: 0 <= k < |last| ==> last[k] == parts[|parts| - 3 + k];
    SplitJoin(last, '.');
  }

  lemma JoinOf4(a: string, b: string, c: string, d: string)
    ensures Join([a, b, c, d], ".") == a + "." + b + "." + c + "." + d
  {
    assert [a, b, c, d][1..] == [b, c, d];
    OracleProc.JoinOf3(b, c, d);
  }

  /** On a four-part name the normalisers differ: this one drops the
      first part, the stored-procedure one keeps the name whole. */
  lemma NormalizeFourParts(a: string, b: string, c: string, d: string, defaultDb: Option<string>, defaultSchema: Option<string>)
    requires '.' !in a && '.' !in b && '.' !in c && '.' !in d
    ensures NormalizeTable(a + "." + b + "." + c + "." + d, defaultDb, defaultSchema) == b + "." + c + "." + d
    ensures OracleProc.NormalizeTableName(a + "." + b + "." + c + "." + d, defaultSchema, defaultDb) == a + "." + b + "." + c + "." + d
  {
    JoinOf4(a, b, c, d);
    SplitJoin([a, b, c, d], '.');
    assert [a, b, c, d][4 - 3..] == [b, c, d];
    OracleProc.JoinOf3(b, c, d);
  }

  // ---------------------------------------------------------------------
  // Polling

  /** A row of V$SQL. */
  datatype ObservedStatement = ObservedStatement(
    sqlId: string,
    parsingSchema: Option<string>,
    sqlText: string,
    lastActiveMillis: int,
    executions: int)

  /** A short-lived process instance reported for one statement; the
      datasets are named by their normalised tables. */
  datatype ProcessInstance = ProcessInstance(
    instanceId: string,
    startMillis: int,
    inputs: set<string>,
    outputs: set<string>)

  /** The cursor moves one second past the last activity it has seen. */
  const CursorStepMillis: int := 1000

  /** V$SQL is polled only when it is among the query sources, in any case. */
  predicate PollsVsql(querySources: seq<string>) {
    exists i :: 0 <= i < |querySources| && Lower(querySources[i]) == "v$sql"
  }

  /** The write heuristic: one of the four DML keywords, with a space on
      each side, somewhere in the lower-cased text. */
  predicate IsWrite(sql: string) {
    var low := Lower(sql);
    Contains(low, " insert ") || Contains(low, " update ") || Contains(low, " merge ") || Contains(low, " delete ")
  }

  /** The normalised tables of a statement. */
  function StatementTables(st: ObservedStatement, defaultDb: Option<string>, defaultSchema: Option<string>): (r: set<string>)
    ensures r == {} <==> ExtractTables(st.sqlText) == {}
  {
    var tables := ExtractTables(st.sqlText);
    var r := set t | t in tables :: NormalizeTable(t, defaultDb, defaultSchema);
    if tables != {} then
      var t :| t in tables;
      assert NormalizeTable(t, defaultDb, defaultSchema) in r;
      r
    else r
  }

  /** What one statement reports: nothing when no table is referenced;
      otherwise its tables as inputs, and as outputs too exactly when it
      looks like a write. */
  function Observe(st: ObservedStatement, defaultDb: Option<string>, defaultSchema: Option<string>): (r: Option<ProcessInstance>)
    ensures r.None? <==> ExtractTables(st.sqlText) == {}
    ensures r.Some? ==> r.value.inputs != {} && r.value.startMillis == st.lastActiveMillis
    ensures r.Some? ==> r.value.outputs == {} || r.value.outputs == r.value.inputs
  {
    var tables := StatementTables(st, defaultDb, defaultSchema);
    if tables == {} then None
    else Some(ProcessInstance("oracle_sql:" + st.sqlId, st.lastActiveMillis, tables, if IsWrite(st.sqlText) then tables else {}))
  }

  /** A reported statement has outputs exactly when it looks like a write. */
  lemma ObserveOutputs(st: ObservedStatement, defaultDb: Option<string>, defaultSchema: Option<string>)
    requires Observe(st, defaultDb, defaultSchema).Some?
    ensures var inst := Observe(st, defaultDb, defaultSchema).value;
      inst.outputs == inst.inputs <==> IsWrite(st.sqlText)
  {
  }

  /** The cursor has been set by an activity time of `stmts[..k]`. */
  predicate SetByActivity(cursor: int, stmts: seq<ObservedStatement>, k: nat) {
    exists i :: 0 <= i < k && i < |stmts| && cursor == stmts[i].lastActiveMillis + CursorStepMillis
  }

  /** One polling cycle over the fetched statements: the cursor advances
      to the latest activity plus one second but never moves back, and
      each statement is observed in turn (`reports`), the ones with tables
      yielding the instances, in order. */
  method PollOnce(cursor: int, querySources: seq<string>, fetched: seq<ObservedStatement>,
                  defaultDb: Option<string>, defaultSchema: Option<string>)
    returns (next: int, reports: seq<Option<ProcessInstance>>, instances: seq<ProcessInstance>)
    ensures !PollsVsql(querySources) ==> next == cursor && reports == [] && instances == []
    ensures PollsVsql(querySources) ==> |reports| == |fetched|
    ensures forall i :: 0 <= i < |reports| ==> reports[i] == Observe(fetched[i], defaultDb, defaultSchema)
    ensures instances == Somes(reports)
    ensures next >= cursor
    ensures PollsVsql(querySources) ==>
      forall i :: 0 <= i < |fetched| ==> next >= fetched[i].lastActiveMillis + CursorStepMillis
    ensures next == cursor || SetByActivity(next, fetched, |fetched|)
  {
    next := cursor;
    reports := [];
    instances := [];
    if !PollsVsql(querySources) {
      return;
    }
    var k := 0;
    while k < |fetched|
      invariant 0 <= k <= |fetched|
      invariant next >= cursor
      invariant forall i :: 0 <= i < k ==> next >= fetched[i].lastActiveMillis + CursorStepMillis
      invariant next == cursor || SetByActivity(next, fetched, k)
    {
      if fetched[k].lastActiveMillis + CursorStepMillis > next {
        next := fetched[k].lastActiveMillis + CursorStepMillis;
      }
      k := k + 1;
    }
    reports := seq(|fetched|, i requires 0 <= i < |fetched| => Observe(fetched[i], defaultDb, defaultSchema));
    instances := Somes(reports);
  }

  /** Every instance of a cycle reports tables, has outputs that are none
      or all of its inputs, and there is none exactly when no fetched
      statement references a table. */
  lemma PollInstances(fetched: seq<ObservedStatement>, reports: seq<Option<ProcessInstance>>,
                      defaultDb: Option<string>, defaultSchema: Option<string>)
    requires |reports| == |fetched|
    requires forall i :: 0 <= i < |reports| ==> reports[i] == Observe(fetched[i], defaultDb, defaultSchema)
    ensures |Somes(reports)| <= |fetched|
    ensures forall x :: x in Somes(reports) ==> x.inputs != {} && (x.outputs == {} || x.outputs == x.inputs)
    ensures Somes(reports) == [] <==> forall i :: 0 <= i < |fetched| ==> ExtractTables(fetched[i].sqlText) == {}
  {
    SomesFacts(reports);
  }

  // ---------------------------------------------------------------------
  // The write heuristic

  /** Two spaces exactly `d` characters apart. */
  predicate SpacesApart(s: string, d: nat) {
    exists p :: 0 <= p && p + d < |s| && s[p] == ' ' && s[p + d] == ' '
  }

  lemma SpacedKeyword(s: string, kw: string)
    requires |kw| >= 2 && kw[0] == ' ' && kw[|kw| - 1] == ' '
    requires Contains(Lower(s), kw)
    ensures SpacesApart(s, |kw| - 1)
  {
    var low := Lower(s);
    var p :| 0 <= p <= |low| - |kw| && LiteralAt(low, p, kw);
    assert low[p] == kw[0] && low[p + |kw| - 1] == kw[|kw| - 1];
    assert s[p] == ' ' && s[p + |kw| - 1] == ' ';
  }

  /** A write has two spaces six or seven characters apart (around
      " merge " or around one of the other three). */
  lemma WriteNeedsSpacedKeyword(sql: string)
    ensures IsWrite(sql) ==> SpacesApart(sql, 6) || SpacesApart(sql, 7)
  {
    var low := Lower(sql);
    if Contains(low, " insert ") {
      SpacedKeyword(sql, " insert ");
    } else if Contains(low, " update ") {
      SpacedKeyword(sql, " update ");
    } else if Contains(low, " merge ") {
      SpacedKeyword(sql, " merge ");
    } else if Contains(low, " delete ") {
      SpacedKeyword(sql, " delete ");
    }
  }

  /** A statement that begins with its keyword and has no other spaces
      counts as read-only: "INSERT INTO t" reports no outputs. */
  lemma LeadingKeywordAlone(t: string)
    requires ' ' !in t
    ensures !IsWrite("INSERT INTO " + t)
  {
    var s := "INSERT INTO " + t;
    WriteNeedsSpacedKeyword(s);
    forall p | 0 <= p < |s| && p != 6 && p != 11
      ensures s[p] != ' '
    {
      if p >= 12 {
        assert s[p] == t[p - 12];
      }
    }
  }

  /** A DML keyword with a space on each side makes a write, whatever
      its case and whatever surrounds it. */
  lemma SpacedKeywordWrites(a: string, b: string)
    ensures IsWrite(a + " INSERT " + b)
  {
    var s := a + " INSERT " + b;
    var low := Lower(s);
    forall k | 0 <= k < 8
      ensures low[|a| + k] == " insert "[k]
    {
      assert s[|a| + k] == " INSERT "[k];
    }
    assert low[|a|..|a| + 8] == " insert ";
    assert LiteralAt(low, |a|, " insert ");
  }

  // ---------------------------------------------------------------------
  // Stored procedures

  /** A procedure's job id: "owner.name", lower-cased. */
  function JobId(owner: string, name: string): (id: string)
    ensures id == Lower(owner) + "." + Lower(name)
    ensures Lower(id) == id
  {
    Lower(owner + "." + name)
  }

  /** A nested call's job edge points at the job of the procedure it
      names when owner and name agree up to case; the upper-casing the
      call scanner applies does not get in the way. */
  lemma CallEdgeMeetsCallee(owner: string, call: string, calleeOwner: string, calleeName: string)
    requires EqualsIgnoreCase(owner, calleeOwner) && EqualsIgnoreCase(call, calleeName)
    ensures JobId(owner, Upper(call)) == JobId(calleeOwner, calleeName)
  {
    LowerUpper(owner);
    LowerUpper(calleeOwner);
    LowerUpper(call);
    LowerUpper(calleeName);
    UpperIdempotent(call);
    LowerUpper(Upper(call));
  }

  /** The normalised names of a set of tables. */
  function NormalizedTables(tables: set<string>, defaultSchema: Option<string>, defaultDb: Option<string>): (r: set<string>)
    ensures r == {} <==> tables == {}
  {
    var r := set t | t in tables :: OracleProc.NormalizeTableName(t, defaultSchema, defaultDb);
    if tables != {} then
      var t :| t in tables;
      assert OracleProc.NormalizeTableName(t, defaultSchema, defaultDb) in r;
      r
    else r
  }

  /** Python's `sorted` of a set of names. */
  method SortedTables(tables: set<string>) returns (r: seq<string>)
    ensures SortedStrings(r) && Elems(r) == tables
  {
    var items := SetToSeq(tables);
    r := SortedUnique(items);
    ElemsIn(items);
    ElemsIn(r);
  }

  /** Table-level field paths "t.*". */
  function Wildcards(tables: seq<string>): (r: seq<string>)
    ensures |r| == |tables| && forall i :: 0 <= i < |tables| ==> r[i] == tables[i] + ".*"
  {
    seq(|tables|, i requires 0 <= i < |tables| => tables[i] + ".*")
  }

  /** A fine-grained mapping: operation, upstream fields, downstream
      fields and query text. */
  datatype FineGrainedMapping = FineGrainedMapping(
    operation: string,
    upstreamFields: seq<string>,
    downstreamFields: seq<string>,
    query: Option<string>)

  /** The mapping of substep `s` onto one of its output tables. */
  predicate MappingOf(m: FineGrainedMapping, s: OracleProc.Substep, upstream: seq<string>, output: string) {
    m.operation == s.operation.Value() && m.upstreamFields == Wildcards(upstream) &&
    m.downstreamFields == [output + ".*"] && m.query == s.sqlPreview
  }

  /** The mappings one substep contributes: one per normalised output
      table, each from all its sorted normalised inputs, and none when it
      has no inputs. `outputs` is the order the output set is visited in. */
  method SubstepMappings(s: OracleProc.Substep, defaultSchema: Option<string>, defaultDb: Option<string>)
    returns (upstream: seq<string>, outputs: seq<string>, r: seq<FineGrainedMapping>)
    ensures SortedStrings(upstream) && Elems(upstream) == NormalizedTables(s.tablesRead, defaultSchema, defaultDb)
    ensures Distinct(outputs) && Elems(outputs) == NormalizedTables(s.tablesWritten, defaultSchema, defaultDb)
    ensures |r| == if s.tablesRead == {} then 0 else |outputs|
    ensures forall i :: 0 <= i < |r| ==> MappingOf(r[i], s, upstream, outputs[i])
  {
    var ins := NormalizedTables(s.tablesRead, defaultSchema, defaultDb);
    var outs := NormalizedTables(s.tablesWritten, defaultSchema, defaultDb);
    upstream := SortedTables(ins);
    outputs := SetToSeq(outs);
    r := [];
    if ins == {} {
      return;
    }
    var k := 0;
    while k < |outputs|
      invariant 0 <= k <= |outputs|
      invariant |r| == k
      invariant forall i :: 0 <= i < k ==> MappingOf(r[i], s, upstream, outputs[i])
    {
      r := r + [FineGrainedMapping(s.operation.Value(), Wildcards(upstream), [outputs[k] + ".*"], s.sqlPreview)];
      k := k + 1;
    }
  }

  /** How many mappings a run of substeps contributes. */
  function MappingCount(substeps: seq<OracleProc.Substep>, defaultSchema: Option<string>, defaultDb: Option<string>): nat {
    if substeps == [] then 0
    else
      var s := substeps[|substeps| - 1];
      MappingCount(substeps[..|substeps| - 1], defaultSchema, defaultDb) +
      (if s.tablesRead == {} then 0 else |NormalizedTables(s.tablesWritten, defaultSchema, defaultDb)|)
  }

  /** A mapping drawn from substep `s`: its operation and query, all the
      substep's inputs upstream and one of its outputs downstream. */
  predicate DrawnFrom(m: FineGrainedMapping, s: OracleProc.Substep, defaultSchema: Option<string>, defaultDb: Option<string>) {
    m.operation == s.operation.Value() && m.query == s.sqlPreview &&
    |m.upstreamFields| == |NormalizedTables(s.tablesRead, defaultSchema, defaultDb)| > 0 &&
    |m.downstreamFields| == 1 && OutputField(m.downstreamFields[0], NormalizedTables(s.tablesWritten, defaultSchema, defaultDb))
  }

  /** The field path "o.*" of one of the output tables. */
  predicate OutputField(f: string, outputs: set<string>) {
    exists o :: o in outputs && f == o + ".*"
  }

  lemma MappingDrawn(m: FineGrainedMapping, s: OracleProc.Substep, upstream: seq<string>, outputs: seq<string>, i: nat,
                     defaultSchema: Option<string>, defaultDb: Option<string>)
    requires Elems(upstream) == NormalizedTables(s.tablesRead, defaultSchema, defaultDb) && s.tablesRead != {}
    requires SortedStrings(upstream)
    requires Elems(outputs) == NormalizedTables(s.tablesWritten, defaultSchema, defaultDb)
    requires i < |outputs| && MappingOf(m, s, upstream, outputs[i])
    ensures DrawnFrom(m, s, defaultSchema, defaultDb)
  {
    assert outputs[i] in Elems(outputs);
    assert OutputField(m.downstreamFields[0], Elems(outputs));
    SortedStringsDistinct(upstream);
    ElemsCard(upstream);
  }

  lemma SortedStringsDistinct(s: seq<string>)
    requires SortedStrings(s)
    ensures Distinct(s)
  {
    forall i, j | 0 <= i < |s| && 0 <= j < |s| && i != j
      ensures s[i] != s[j]
    {
      if i < j {
        StrLessIrreflexive(s[i]);
      } else {
        StrLessIrreflexive(s[j]);
      }
    }
  }

  /** Some substep of the procedure the mapping is drawn from. */
  predicate FromSomeSubstep(m: FineGrainedMapping, substeps: seq<OracleProc.Substep>, defaultSchema: Option<string>, defaultDb: Option<string>) {
    exists k :: 0 <= k < |substeps| && DrawnFrom(m, substeps[k], defaultSchema, defaultDb)
  }

  /** `part` is what one substep contributes: one mapping per normalised
      output table, in some order of the output set, each from all the
      sorted normalised inputs; none when the substep reads nothing. */
  ghost predicate SubstepPart(s: OracleProc.Substep, part: seq<FineGrainedMapping>, defaultSchema: Option<string>, defaultDb: Option<string>) {
    exists upstream: seq<string>, outputs: seq<string> ::
      && SortedStrings(upstream) && Elems(upstream) == NormalizedTables(s.tablesRead, defaultSchema, defaultDb)
      && Distinct(outputs) && Elems(outputs) == NormalizedTables(s.tablesWritten, defaultSchema, defaultDb)
      && |part| == (if s.tablesRead == {} then 0 else |outputs|)
      && forall i :: 0 <= i < |part| ==> MappingOf(part[i], s, upstream, outputs[i])
  }

  /** The fine-grained mappings of a procedure: none unless it writes
      some table; otherwise the mappings of every substep (`parts`), one
      substep after the other. */
  method ProcedureMappings(proc: OracleProc.StoredProcedure, defaultSchema: Option<string>, defaultDb: Option<string>)
    returns (parts: seq<seq<FineGrainedMapping>>, r: seq<FineGrainedMapping>)
    ensures proc.allTablesWritten == {} ==> r == []
    ensures proc.allTablesWritten != {} ==> |parts| == |proc.substeps| && r == Flatten(parts)
    ensures proc.allTablesWritten != {} ==> forall k :: 0 <= k < |parts| ==> SubstepPart(proc.substeps[k], parts[k], defaultSchema, defaultDb)
    ensures proc.allTablesWritten != {} ==> |r| == MappingCount(proc.substeps, defaultSchema, defaultDb)
    ensures forall i :: 0 <= i < |r| ==> FromSomeSubstep(r[i], proc.substeps, defaultSchema, defaultDb)
  {
    parts := [];
    r := [];
    if NormalizedTables(proc.allTablesWritten, defaultSchema, defaultDb) == {} {
      return;
    }
    var k := 0;
    MappingsStart(proc.substeps, defaultSchema, defaultDb);
    while k < |proc.substeps|
      invariant 0 <= k <= |proc.substeps|
      invariant MappingsSoFar(proc.substeps, k, parts, r, defaultSchema, defaultDb)
    {
      var upstream, outputs, more := SubstepMappings(proc.substeps[k], defaultSchema, defaultDb);
      MappingsStep(proc.substeps, k, parts, r, upstream, outputs, more, defaultSchema, defaultDb);
      r := r + more;
      parts := parts + [more];
      k := k + 1;
    }
    MappingsDone(proc.substeps, parts, r, defaultSchema, defaultDb);
  }

  /** The state of the loop over the substeps after the first `k`. */
  ghost predicate MappingsSoFar(substeps: seq<OracleProc.Substep>, k: nat, parts: seq<seq<FineGrainedMapping>>, r: seq<FineGrainedMapping>,
                                defaultSchema: Option<string>, defaultDb: Option<string>)
    requires k <= |substeps|
  {
    && |parts| == k && r == Flatten(parts)
    && (forall j :: 0 <= j < k ==> SubstepPart(substeps[j], parts[j], defaultSchema, defaultDb))
    && |r| == MappingCount(substeps[..k], defaultSchema, defaultDb)
    && (forall i :: 0 <= i < |r| ==> FromSomeSubstep(r[i], substeps, defaultSchema, defaultDb))
  }

  /** Before the loop nothing is mapped. */
  lemma MappingsStart(substeps: seq<OracleProc.Substep>, defaultSchema: Option<string>, defaultDb: Option<string>)
    ensures MappingsSoFar(substeps, 0, [], [], defaultSchema, defaultDb)
  {
    assert substeps[..0] == [];
  }

  /** After the loop every substep is mapped. */
  lemma MappingsDone(substeps: seq<OracleProc.Substep>, parts: seq<seq<FineGrainedMapping>>, r: seq<FineGrainedMapping>,
                     defaultSchema: Option<string>, defaultDb: Option<string>)
    requires MappingsSoFar(substeps, |substeps|, parts, r, defaultSchema, defaultDb)
    ensures |parts| == |substeps| && r == Flatten(parts)
    ensures forall k :: 0 <= k < |parts| ==> SubstepPart(substeps[k], parts[k], defaultSchema, defaultDb)
    ensures |r| == MappingCount(substeps, defaultSchema, defaultDb)
    ensures forall i :: 0 <= i < |r| ==> FromSomeSubstep(r[i], substeps, defaultSchema, defaultDb)
  {
    assert substeps[..|substeps|] == substeps;
  }

  /** Appending the mappings of substep `k` keeps the loop's state. */
  lemma MappingsStep(substeps: seq<OracleProc.Substep>, k: nat, parts: seq<seq<FineGrainedMapping>>, r: seq<FineGrainedMapping>,
                     upstream: seq<string>, outputs: seq<string>, more: seq<FineGrainedMapping>,
                     defaultSchema: Option<string>, defaultDb: Option<string>)
    requires k < |substeps| && MappingsSoFar(substeps, k, parts, r, defaultSchema, defaultDb)
    requires SortedStrings(upstream) && Elems(upstream) == NormalizedTables(substeps[k].tablesRead, defaultSchema, defaultDb)
    requires Distinct(outputs) && Elems(outputs) == NormalizedTables(substeps[k].tablesWritten, defaultSchema, defaultDb)
    requires |more| == if substeps[k].tablesRead == {} then 0 else |outputs|
    requires forall i :: 0 <= i < |more| ==> MappingOf(more[i], substeps[k], upstream, outputs[i])
    ensures MappingsSoFar(substeps, k + 1, parts + [more], r + more, defaultSchema, defaultDb)
  {
    SubstepCount(substeps, k, outputs, more, defaultSchema, defaultDb);
    SubstepDrawn(substeps, k, upstream, outputs, more, defaultSchema, defaultDb);
    assert SubstepPart(substeps[k], more, defaultSchema, defaultDb);
    PartsAppend(parts, more);
    PartsKept(substeps, parts, more, defaultSchema, defaultDb);
    DrawnKept(substeps, r, more, defaultSchema, defaultDb);
  }

  lemma PartsKept(substeps: seq<OracleProc.Substep>, parts: seq<seq<FineGrainedMapping>>, more: seq<FineGrainedMapping>,
                  defaultSchema: Option<string>, defaultDb: Option<string>)
    requires |parts| < |substeps|
    requires forall j :: 0 <= j < |parts| ==> SubstepPart(substeps[j], parts[j], defaultSchema, defaultDb)
    requires SubstepPart(substeps[|parts|], more, defaultSchema, defaultDb)
    ensures forall j :: 0 <= j < |parts| + 1 ==> SubstepPart(substeps[j], (parts + [more])[j], defaultSchema, defaultDb)
  {
    forall j | 0 <= j < |parts| + 1 ensures SubstepPart(substeps[j], (parts + [more])[j], defaultSchema, defaultDb) {
      if j < |parts| { assert (parts + [more])[j] == parts[j]; }
    }
  }

  lemma DrawnKept(substeps: seq<OracleProc.Substep>, r: seq<FineGrainedMapping>, more: seq<FineGrainedMapping>,
                  defaultSchema: Option<string>, defaultDb: Option<string>)
    requires forall i :: 0 <= i < |r| ==> FromSomeSubstep(r[i], substeps, defaultSchema, defaultDb)
    requires forall i :: 0 <= i < |more| ==> FromSomeSubstep(more[i], substeps, defaultSchema, defaultDb)
    ensures forall i :: 0 <= i < |r + more| ==> FromSomeSubstep((r + more)[i], substeps, defaultSchema, defaultDb)
  {
    forall i | 0 <= i < |r + more| ensures FromSomeSubstep((r + more)[i], substeps, defaultSchema, defaultDb) {
      if i < |r| { assert (r + more)[i] == r[i]; } else { assert (r + more)[i] == more[i - |r|]; }
    }
  }

  /** One more part goes after the flattened earlier ones. */
  lemma PartsAppend(parts: seq<seq<FineGrainedMapping>>, more: seq<FineGrainedMapping>)
    ensures Flatten(parts + [more]) == Flatten(parts) + more
  {
    assert (parts + [more])[..|parts|] == parts;
  }

  /** The mappings of substep `k` add to the count. */
  lemma SubstepCount(substeps: seq<OracleProc.Substep>, k: nat, outputs: seq<string>,
                     more: seq<FineGrainedMapping>, defaultSchema: Option<string>, defaultDb: Option<string>)
    requires k < |substeps|
    requires Distinct(outputs) && Elems(outputs) == NormalizedTables(substeps[k].tablesWritten, defaultSchema, defaultDb)
    requires |more| == if substeps[k].tablesRead == {} then 0 else |outputs|
    ensures MappingCount(substeps[..k + 1], defaultSchema, defaultDb) == MappingCount(substeps[..k], defaultSchema, defaultDb) + |more|
  {
    ElemsCard(outputs);
    assert substeps[..k + 1][..k] == substeps[..k];
  }

  /** The mappings of substep `k` come from it. */
  lemma SubstepDrawn(substeps: seq<OracleProc.Substep>, k: nat, upstream: seq<string>, outputs: seq<string>,
                     more: seq<FineGrainedMapping>, defaultSchema: Option<string>, defaultDb: Option<string>)
    requires k < |substeps|
    requires SortedStrings(upstream) && Elems(upstream) == NormalizedTables(substeps[k].tablesRead, defaultSchema, defaultDb)
    requires Elems(outputs) == NormalizedTables(substeps[k].tablesWritten, defaultSchema, defaultDb)
    requires |more| == if substeps[k].tablesRead == {} then 0 else |outputs|
    requires forall i :: 0 <= i < |more| ==> MappingOf(more[i], substeps[k], upstream, outputs[i])
    ensures forall i :: 0 <= i < |more| ==> FromSomeSubstep(more[i], substeps, defaultSchema, defaultDb)
  {
    forall i | 0 <= i < |more|
      ensures FromSomeSubstep(more[i], substeps, defaultSchema, defaultDb)
    {
      MappingDrawn(more[i], substeps[k], upstream, outputs, i, defaultSchema, defaultDb);
    }
  }

  /** The coarse inputs and outputs of a procedure's job: sorted
      normalised tables, and an edge to the job of each nested call. */
  datatype JobIo = JobIo(inputs: seq<string>, outputs: seq<string>, upstreamJobs: seq<string>)

  /** `None` when the procedure touches no table; otherwise its sorted
      normalised inputs and outputs, and one job edge per nested call
      (`calls` is the order the call set is visited in). */
  method ProcedureIo(proc: OracleProc.StoredProcedure, defaultSchema: Option<string>, defaultDb: Option<string>)
    returns (calls: seq<string>, io: Option<JobIo>)
    ensures Distinct(calls) && Elems(calls) == proc.nestedCalls
    ensures io.None? <==> proc.allTablesRead == {} && proc.allTablesWritten == {}
    ensures io.Some? ==> SortedStrings(io.value.inputs) && Elems(io.value.inputs) == NormalizedTables(proc.allTablesRead, defaultSchema, defaultDb)
    ensures io.Some? ==> SortedStrings(io.value.outputs) && Elems(io.value.outputs) == NormalizedTables(proc.allTablesWritten, defaultSchema, defaultDb)
    ensures io.Some? ==> |io.value.upstreamJobs| == |calls|
    ensures io.Some? ==> forall i :: 0 <= i < |calls| ==> io.value.upstreamJobs[i] == JobId(proc.owner, calls[i])
  {
    calls := SetToSeq(proc.nestedCalls);
    var inputs := SortedTables(NormalizedTables(proc.allTablesRead, defaultSchema, defaultDb));
    var outputs := SortedTables(NormalizedTables(proc.allTablesWritten, defaultSchema, defaultDb));
    if inputs != [] {
      assert inputs[0] in Elems(inputs);
    }
    if outputs != [] {
      assert outputs[0] in Elems(outputs);
    }
    if inputs == [] && outputs == [] {
      io := None;
    } else {
      io := Some(JobIo(inputs, outputs, seq(|calls|, i requires 0 <= i < |calls| => JobId(proc.owner, calls[i]))));
    }
  }
}
