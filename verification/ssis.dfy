/** The SSIS package extractor (`ssis_dtsx.py`): task naming, the two
    table-name qualifiers, the table lists of a parsed statement and the
    regular-expression fallback used when a statement does not parse.
    The SQL parser itself is outside the model: a parsed statement is
    given as the table nodes and DML targets it contains. */
module Ssis {
  import opened Basics
  import opened Text
  import opened Scan
  import OracleProc

  // ---------------------------------------------------------------------
  // Tasks

  /** One executable of a package. */
  datatype SsisTask = SsisTask(name: string, taskType: string, sqlStatements: seq<string>)

  /** A task's name: its ObjectName, else its Name, else "ssis_task";
      empty attributes count as missing. */
  function TaskName(objectName: Option<string>, name: Option<string>): (r: string)
    ensures r != ""
    ensures Truthy(objectName) ==> r == objectName.value
    ensures !Truthy(objectName) && Truthy(name) ==> r == name.value
    ensures !Truthy(objectName) && !Truthy(name) ==> r == "ssis_task"
  {
    OrElse(OrElse(objectName, name), Some("ssis_task")).value
  }

  /** A task's type: the last "."-separated component of its
      ExecutableType, or "SSIS_EXECUTABLE" when there is none. */
  function TaskType(executableType: Option<string>): (r: string)
    ensures '.' !in r
    ensures !Truthy(executableType) ==> r == "SSIS_EXECUTABLE"
  {
    if Truthy(executableType) then
      var parts := Split(executableType.value, '.');
      parts[|parts| - 1]
    else "SSIS_EXECUTABLE"
  }

  /** The type of a dotted executable type is its last component. */
  lemma TaskTypeLastComponent(prefix: string, last: string)
    requires '.' !in last
    ensures TaskType(Some(prefix + "." + last)) == last
  {
    SplitAppendPiece(prefix, last, '.');
  }

  /** An undotted executable type is its own type. */
  lemma TaskTypeUndotted(t: string)
    requires t != "" && '.' !in t
    ensures TaskType(Some(t)) == t
  {
    assert FindFrom(t, 0, c => c == '.') == |t|;
  }

  // ---------------------------------------------------------------------
  // Qualifying a table name

  /** `_normalize_table_name`: an undotted name gains the default schema;
      then a name with exactly one "." gains the default database. */
  function QualifyName(table: string, defaultDb: Option<string>, defaultSchema: Option<string>): string {
    var withSchema := if Truthy(defaultSchema) && '.' !in table then defaultSchema.value + "." + table else table;
    if Truthy(defaultDb) && CountChar(withSchema, '.') == 1 then defaultDb.value + "." + withSchema else withSchema
  }

  lemma DotsOf2(a: string, b: string)
    requires '.' !in a && '.' !in b
    ensures CountChar(a + "." + b, '.') == 1
  {
    CountCharZero(a, '.');
    CountCharZero(b, '.');
    CountCharAppend(a, ".", '.');
    CountCharAppend(a + ".", b, '.');
    assert CountChar(".", '.') == 1 by {
      assert "."[..0] == [];
    }
  }

  lemma DotsOf3(a: string, b: string, c: string)
    requires '.' !in a && '.' !in b && '.' !in c
    ensures CountChar(a + "." + b + "." + c, '.') == 2
  {
    DotsOf2(b, c);
    CountCharZero(a, '.');
    CountCharAppend(a, ".", '.');
    assert CountChar(".", '.') == 1 by {
      assert "."[..0] == [];
    }
    assert a + "." + b + "." + c == (a + ".") + (b + "." + c);
    CountCharAppend(a + ".", b + "." + c, '.');
  }

  /** A bare name with both defaults becomes "db.schema.name", as the
      Oracle normaliser makes it. */
  lemma QualifyBare(table: string, db: string, schema: string)
    requires table != "" && db != "" && schema != ""
    requires '.' !in table && '.' !in db && '.' !in schema
    ensures QualifyName(table, Some(db), Some(schema)) == db + "." + schema + "." + table
    ensures QualifyName(table, Some(db), Some(schema)) == OracleProc.NormalizeTableName(table, Some(schema), Some(db))
  {
    QualifyBareName(table, db, schema);
    OracleProc.NormalizeBareFull(table, schema, db);
  }

  lemma QualifyBareName(table: string, db: string, schema: string)
    requires db != "" && schema != ""
    requires '.' !in table && '.' !in schema
    ensures QualifyName(table, Some(db), Some(schema)) == db + "." + schema + "." + table
  {
    var withSchema := schema + "." + table;
    DotsOf2(schema, table);
    assert QualifyName(table, Some(db), Some(schema)) == db + "." + withSchema;
    assert db + "." + withSchema == db + "." + schema + "." + table;
  }

  /** A schema-qualified name gains the default database, as the Oracle
      normaliser does. */
  lemma QualifySchemaQualified(schema: string, table: string, db: string, defaultSchema: Option<string>)
    requires schema != "" && table != "" && db != ""
    requires '.' !in schema && '.' !in table
    ensures QualifyName(schema + "." + table, Some(db), defaultSchema) == db + "." + schema + "." + table
    ensures QualifyName(schema + "." + table, Some(db), defaultSchema) ==
      OracleProc.NormalizeTableName(schema + "." + table, defaultSchema, Some(db))
  {
    QualifyOneDot(schema, table, db, defaultSchema);
    OracleProc.NormalizeSchemaQualified(schema, table, defaultSchema, db);
  }

  lemma QualifyOneDot(schema: string, table: string, db: string, defaultSchema: Option<string>)
    requires db != "" && '.' !in schema && '.' !in table
    ensures QualifyName(schema + "." + table, Some(db), defaultSchema) == db + "." + schema + "." + table
  {
    var t := schema + "." + table;
    assert t[|schema|] == '.';
    DotsOf2(schema, table);
    assert QualifyName(t, Some(db), defaultSchema) == db + "." + t;
  }

  /** Without a default schema a bare name stays bare, although a
      default database is set; the Oracle normaliser would prefix it. */
  lemma QualifyNeedsSchemaForDb(table: string, db: string)
    requires table != "" && db != "" && '.' !in table
    ensures QualifyName(table, Some(db), None) == table
    ensures OracleProc.NormalizeTableName(table, None, Some(db)) == db + "." + table
  {
    CountCharZero(table, '.');
    OracleProc.NormalizeBare(table, db);
  }

  /** A name with two dots or more is left alone. */
  lemma QualifyKeepsQualified(table: string, defaultDb: Option<string>, defaultSchema: Option<string>)
    requires CountChar(table, '.') >= 2
    ensures QualifyName(table, defaultDb, defaultSchema) == table
  {
    CountCharZero(table, '.');
  }

  /** With undotted defaults, qualifying twice is qualifying once. */
  lemma QualifyIdempotent(table: string, defaultDb: Option<string>, defaultSchema: Option<string>)
    requires defaultDb.Some? ==> '.' !in defaultDb.value
    requires defaultSchema.Some? ==> '.' !in defaultSchema.value
    ensures QualifyName(QualifyName(table, defaultDb, defaultSchema), defaultDb, defaultSchema) ==
      QualifyName(table, defaultDb, defaultSchema)
  {
    var once := QualifyName(table, defaultDb, defaultSchema);
    CountCharZero(table, '.');
    if Truthy(defaultSchema) && '.' !in table {
      var w := defaultSchema.value + "." + table;
      DotsOf2(defaultSchema.value, table);
      assert '.' in w by { assert w[|defaultSchema.value|] == '.'; }
      if Truthy(defaultDb) {
        DotsOf3(defaultDb.value, defaultSchema.value, table);
        assert once == defaultDb.value + "." + defaultSchema.value + "." + table;
        QualifyKeepsQualified(once, defaultDb, defaultSchema);
      } else {
        assert once == w;
      }
    } else if Truthy(defaultDb) && CountChar(table, '.') == 1 {
      var parts := OneDotParts(table);
      DotsOf3(defaultDb.value, parts.0, parts.1);
      assert once == defaultDb.value + "." + parts.0 + "." + parts.1;
      QualifyKeepsQualified(once, defaultDb, defaultSchema);
    } else {
      assert once == table;
    }
  }

  /** A name with exactly one "." is two undotted parts around it. */
  lemma OneDotParts(s: string) returns (parts: (string, string))
    requires CountChar(s, '.') == 1
    ensures '.' !in parts.0 && '.' !in parts.1 && s == parts.0 + "." + parts.1
  {
    CountCharZero(s, '.');
    parts := SplitFirst(s, '.').value;
    CountOneDotTail(parts.0, parts.1);
  }

  /** A string holding one dot before which there is none has none after it. */
  lemma CountOneDotTail(a: string, b: string)
    requires CountChar(a + "." + b, '.') == 1 && '.' !in a
    ensures '.' !in b
  {
    assert a + "." + b == a + ("." + b);
    CountCharAppend(a, "." + b, '.');
    CountCharAppend(".", b, '.');
    assert CountChar(".", '.') == 1 by {
      assert "."[..0] == [];
    }
    CountCharZero(a, '.');
    CountCharZero(b, '.');
  }

  // ---------------------------------------------------------------------
  // Tables of a parsed statement

  /** A table node of the parsed statement; missing parts are `None` or
      empty. */
  datatype TableRef = TableRef(catalog: Option<string>, schema: Option<string>, name: string)

  /** What the SQL parser yields for a statement: every table node, and
      the target tables of its INSERT, UPDATE, DELETE, MERGE, CREATE and
      REPLACE nodes. */
  datatype ParsedSql = ParsedSql(tables: seq<TableRef>, targets: seq<TableRef>)

  /** A table node's name: "catalog.schema.name" when both are known,
      "schema.name" with a schema only, and the bare name otherwise, so a
      catalog without a schema is dropped. Defaults fill missing parts. */
  function TableName(t: TableRef, defaultDb: Option<string>, defaultSchema: Option<string>): string {
    var catalog := OrElse(t.catalog, defaultDb);
    var schema := OrElse(t.schema, defaultSchema);
    if Truthy(catalog) && Truthy(schema) then catalog.value + "." + schema.value + "." + t.name
    else if Truthy(schema) then schema.value + "." + t.name
    else t.name
  }

  /** A catalog is not used without a schema. */
  lemma CatalogNeedsSchema(catalog: string, name: string)
    ensures TableName(TableRef(Some(catalog), None, name), None, None) == name
  {
  }

  /** A node's own parts win over the defaults. */
  lemma OwnPartsWin(catalog: string, schema: string, name: string, defaultDb: Option<string>, defaultSchema: Option<string>)
    requires catalog != "" && schema != ""
    ensures TableName(TableRef(Some(catalog), Some(schema), name), defaultDb, defaultSchema) == catalog + "." + schema + "." + name
  {
  }

  function TableNames(tables: seq<TableRef>, defaultDb: Option<string>, defaultSchema: Option<string>): (r: seq<string>)
    ensures |r| == |tables| && forall i :: 0 <= i < |tables| ==> r[i] == TableName(tables[i], defaultDb, defaultSchema)
  {
    seq(|tables|, i requires 0 <= i < |tables| => TableName(tables[i], defaultDb, defaultSchema))
  }

  /** `_normalize_tables`: the names of the nodes, sorted, each once. */
  function NormalizeTables(tables: seq<TableRef>, defaultDb: Option<string>, defaultSchema: Option<string>): (r: seq<string>)
    ensures SortedStrings(r)
    ensures forall x :: x in r <==> x in TableNames(tables, defaultDb, defaultSchema)
  {
    SortedUnique(TableNames(tables, defaultDb, defaultSchema))
  }

  /** A filter keeps a sorted sequence sorted. */
  lemma {:induction false} FilterSorted(s: seq<string>, p: string -> bool)
    requires SortedStrings(s)
    ensures SortedStrings(Filter(s, p))
    decreases |s|
  {
    if s != [] {
      FilterSorted(s[1..], p);
      var rest := Filter(s[1..], p);
      if p(s[0]) {
        forall j | 0 <= j < |rest|
          ensures StrLess(s[0], rest[j])
        {
          assert rest[j] in s[1..];
        }
        assert Filter(s, p) == [s[0]] + rest;
      }
    }
  }

  /** `extract_sql_tables`: a statement that does not parse goes to the
      fallback; otherwise the outputs are the sorted DML targets and the
      inputs the sorted tables that are not outputs. */
  function ExtractSqlTables(sqlText: string, parsed: Option<ParsedSql>, defaultDb: Option<string>, defaultSchema: Option<string>)
    : (r: (seq<string>, seq<string>))
    ensures parsed.None? ==> r == FallbackTables(sqlText, defaultDb, defaultSchema)
    ensures SortedStrings(r.0) && SortedStrings(r.1)
    ensures forall x :: x in r.0 ==> x !in r.1
    ensures parsed.Some? ==> forall x :: x in r.0 <==>
      x in TableNames(parsed.value.tables, defaultDb, defaultSchema) && x !in r.1
    ensures parsed.Some? ==> forall x :: x in r.1 <==> x in TableNames(parsed.value.targets, defaultDb, defaultSchema)
  {
    if parsed.None? then FallbackTables(sqlText, defaultDb, defaultSchema)
    else
      var tables := NormalizeTables(parsed.value.tables, defaultDb, defaultSchema);
      var outputs := NormalizeTables(parsed.value.targets, defaultDb, defaultSchema);
      var inputs := Filter(tables, t => t !in outputs);
      FilterSorted(tables, t => t !in outputs);
      (inputs, outputs)
  }

  // ---------------------------------------------------------------------
  // The fallback

  /** The characters of a fallback table reference: `[\w.\[\]]`. */
  predicate IsTableChar(c: char) { IsWordChar(c) || c == '.' || c == '[' || c == ']' }

  predicate IsBracket(c: char) { c == '[' || c == ']' }

  /** `from|join|into|update` at `p`, case-insensitive: where it ends. */
  function FallbackKeywordEnd(s: string, p: nat): (r: Option<nat>)
    ensures r.Some? ==> p < r.value <= |s|
  {
    if KeywordAt(s, p, "FROM") || KeywordAt(s, p, "JOIN") || KeywordAt(s, p, "INTO") then Some(p + 4)
    else if KeywordAt(s, p, "UPDATE") then Some(p + 6)
    else None
  }

  /** `\b(?:from|join|into|update)\s+([\w\.\[\]]+)`, case-insensitive:
      the reference after the keyword. */
  function FallbackRefAt(s: string, p: nat): (r: Option<Hit<string>>)
    ensures r.Some? ==> p < r.value.end <= |s|
    ensures r.Some? ==> r.value.value != [] && forall k :: 0 <= k < |r.value.value| ==> IsTableChar(r.value.value[k])
  {
    if !StartsWord(s, p) then None
    else match FallbackKeywordEnd(s, p)
      case None => None
      case Some(k) =>
        var b := SpaceEnd(s, k);
        if b == k || b == |s| || !IsTableChar(s[b]) then None
        else
          var e := RunEnd(s, b, IsTableChar);
          Some(Hit(s[b..e], e))
  }

  /** The references the pattern finds, left to right. */
  function FallbackMatches(sqlText: string): seq<string> {
    FindAll(sqlText, 0, FallbackRefAt)
  }

  /** A fallback table: the reference without its outer brackets, then
      qualified. */
  function FallbackTable(m: string, defaultDb: Option<string>, defaultSchema: Option<string>): string {
    QualifyName(TrimBy(m, IsBracket), defaultDb, defaultSchema)
  }

  /** `_extract_tables_fallback`: the sorted, duplicate-free fallback
      tables as inputs, and never an output. */
  function FallbackTables(sqlText: string, defaultDb: Option<string>, defaultSchema: Option<string>): (r: (seq<string>, seq<string>))
    ensures r.1 == []
    ensures SortedStrings(r.0)
    ensures forall x :: x in r.0 <==> exists m :: m in FallbackMatches(sqlText) && x == FallbackTable(m, defaultDb, defaultSchema)
  {
    var ms := FallbackMatches(sqlText);
    var tables := seq(|ms|, i requires 0 <= i < |ms| => FallbackTable(ms[i], defaultDb, defaultSchema));
    assert forall x :: x in tables <==> exists m :: m in ms && x == FallbackTable(m, defaultDb, defaultSchema) by {
      forall x | x in tables
        ensures exists m :: m in ms && x == FallbackTable(m, defaultDb, defaultSchema)
      {
        var i :| 0 <= i < |ms| && tables[i] == x;
        assert ms[i] in ms;
      }
      forall m | m in ms
        ensures FallbackTable(m, defaultDb, defaultSchema) in tables
      {
        var i :| 0 <= i < |ms| && ms[i] == m;
        assert tables[i] == FallbackTable(m, defaultDb, defaultSchema);
      }
    }
    (SortedUnique(tables), [])
  }

  /** Only the outer brackets go: "[dbo].[t]" keeps its inner "].[". */
  lemma BracketsOnlyAtEnds(a: string, b: string)
    requires a != [] && b != [] && !IsBracket(a[0]) && !IsBracket(b[|b| - 1])
    ensures TrimBy("[" + a + "].[" + b + "]", IsBracket) == a + "].[" + b
  {
    var inner := a + "].[" + b;
    assert "[" + a + "].[" + b + "]" == ['['] + inner + [']'];
    assert inner[0] == a[0];
    assert inner[|inner| - 1] == b[|b| - 1];
    TrimByEnclosed(inner, '[', ']', IsBracket);
  }
}
