/** Column lineage out of a Source Qualifier's SQL override.  The SQL
    parser itself is not modelled: a query arrives already parsed into the
    few facts the resolver reads (the tables it names, and for each select
    item its kind, its alias and the columns inside it).  What is modelled
    is how those facts are turned into lineage: alias resolution, the
    matching of query tables against the known source tables, the
    unique-field fallback for unqualified columns, `SELECT *`, and the
    pattern scan that spots stored procedure calls. */
module InfaSql {
  import opened Basics
  import opened Text
  import opened OrderedMap

  /** A table named in the query; `alias` is "" when it has none. */
  datatype TableRef = TableRef(name: string, alias: string)

  /** A column reference; `table` is "" when it is unqualified. */
  datatype ColumnRef = ColumnRef(table: string, name: string)

  /** A select item: `expr AS alias`, a bare column, a bare `*`, or any
      other expression; `text` is the item as SQL text. */
  datatype SelectItem =
    | AliasItem(alias: string, columns: seq<ColumnRef>, text: string)
    | ColumnItem(column: ColumnRef, text: string)
    | StarItem
    | OtherItem(columns: seq<ColumnRef>, text: string)

  /** What the parser makes of a query: nothing usable (library missing or
      a parse error), a statement that is not a SELECT, or a SELECT. */
  datatype SqlParse =
    | Unparsed
    | NotSelect
    | Select(tables: seq<TableRef>, items: seq<SelectItem>)

  /** The known source tables, each with its field names in order. */
  type SourceTables = OMap<string, seq<string>>

  /** One result of the parser: the upstream `(table, column)` pairs, the
      output column, and the item's SQL text (absent for `*`). */
  datatype ColumnLineage = ColumnLineage(upstream: seq<(string, string)>, output: string, expression: Option<string>)

  /** A known table stands for a query table when the names agree ignoring
      case, or the known name ends with `.` and the query name. */
  predicate TableMatches(known: string, name: string) {
    Upper(known) == Upper(name) || EndsWith(Upper(known), "." + Upper(name))
  }

  /** The first known table that stands for `name`. */
  function MatchKnownTable(known: seq<string>, name: string): (r: Option<string>)
    ensures r.None? <==> forall i :: 0 <= i < |known| ==> !TableMatches(known[i], name)
    ensures r.Some? ==> exists i :: (0 <= i < |known| && known[i] == r.value && TableMatches(known[i], name) &&
      forall j :: 0 <= j < i ==> !TableMatches(known[j], name))
  {
    if known == [] then None
    else if TableMatches(known[0], name) then Some(known[0])
    else
      var r := MatchKnownTable(known[1..], name);
      assert r.Some? ==> exists i :: (0 <= i < |known| && known[i] == r.value && TableMatches(known[i], name) &&
        forall j :: 0 <= j < i ==> !TableMatches(known[j], name)) by {
        if r.Some? {
          var i :| 0 <= i < |known[1..]| && known[1..][i] == r.value && TableMatches(known[1..][i], name) &&
            forall j :: 0 <= j < i ==> !TableMatches(known[1..][j], name);
          assert forall j :: 0 <= j < i + 1 ==> !TableMatches(known[j], name) by {
            forall j | 0 <= j < i + 1 ensures !TableMatches(known[j], name) {
              if j > 0 {
                assert known[j] == known[1..][j - 1];
              }
            }
          }
        }
      }
      r
  }

  /** The key a query table is known by: its alias, else its name, upper-cased. */
  function RefKey(t: TableRef): string {
    Upper(if t.alias != "" then t.alias else t.name)
  }

  /** The table a query table resolves to: the matching known table, else its own name. */
  function RefTarget(t: TableRef, known: seq<string>): string {
    MatchKnownTable(known, t.name).GetOr(t.name)
  }

  /** The alias map of a query: each table's key mapped to its target, a
      later table overriding an earlier one with the same key. */
  function SourceRefs(tables: seq<TableRef>, known: seq<string>): (refs: OMap<string, string>)
  {
    FromPairs(RefEntries(tables, known))
  }

  function RefEntries(tables: seq<TableRef>, known: seq<string>): (r: seq<(string, string)>)
    ensures |r| == |tables| && forall i :: 0 <= i < |tables| ==> r[i] == (RefKey(tables[i]), RefTarget(tables[i], known))
  {
    seq(|tables|, i requires 0 <= i < |tables| => (RefKey(tables[i]), RefTarget(tables[i], known)))
  }

  /** The alias map has no key twice, and knows a key exactly when some
      query table is known by it; it then maps it to the target of the
      last such table. */
  lemma SourceRefsGet(tables: seq<TableRef>, known: seq<string>, k: string)
    ensures Valid(SourceRefs(tables, known))
    ensures Get(SourceRefs(tables, known), k).None? <==> forall i :: 0 <= i < |tables| ==> RefKey(tables[i]) != k
    ensures forall i :: 0 <= i < |tables| && RefKey(tables[i]) == k && (forall j :: i < j < |tables| ==> RefKey(tables[j]) != k) ==>
      Get(SourceRefs(tables, known), k) == Some(RefTarget(tables[i], known))
  {
    var e := RefEntries(tables, known);
    FromPairsKeys(e);
    FromPairsAbsent(e, k);
    forall i | 0 <= i < |tables| && RefKey(tables[i]) == k && (forall j :: i < j < |tables| ==> RefKey(tables[j]) != k)
      ensures Get(SourceRefs(tables, known), k) == Some(RefTarget(tables[i], known))
    {
      assert LastWithKey(e, k, i);
      FromPairsGet(e, k, i);
    }
  }

  /** Positions `(i, b)`, from `b = j` on, of the fields named `column`
      ignoring case, where `i` is the table's position. */
  function FieldPositions(fields: seq<string>, column: string, i: nat, j: nat): (r: seq<(nat, nat)>)
    requires j <= |fields|
    ensures forall k :: 0 <= k < |r| ==> r[k].0 == i && j <= r[k].1 < |fields| && EqualsIgnoreCase(fields[r[k].1], column)
    ensures forall b :: j <= b < |fields| && EqualsIgnoreCase(fields[b], column) ==> (i, b) in r
    ensures Distinct(r)
    decreases |fields| - j
  {
    if j == |fields| then []
    else if EqualsIgnoreCase(fields[j], column) then [(i, j)] + FieldPositions(fields, column, i, j + 1)
    else FieldPositions(fields, column, i, j + 1)
  }

  /** Field `b` of table `a` is named `column`, ignoring case. */
  predicate FieldNamed(st: SourceTables, a: int, b: int, column: string) {
    0 <= a < |st| && 0 <= b < |st[a].1| && EqualsIgnoreCase(st[a].1[b], column)
  }

  /** Positions of the fields named `column` in tables `i` onwards. */
  function MatchPositions(st: SourceTables, column: string, i: nat): (r: seq<(nat, nat)>)
    requires i <= |st|
    ensures forall k :: 0 <= k < |r| ==> i <= r[k].0 && FieldNamed(st, r[k].0, r[k].1, column)
    ensures forall a, b :: i <= a && FieldNamed(st, a, b, column) ==> (a, b) in r
    ensures Distinct(r)
    decreases |st| - i
  {
    if i == |st| then []
    else
      var here := FieldPositions(st[i].1, column, i, 0);
      var rest := MatchPositions(st, column, i + 1);
      assert forall x, y :: 0 <= x < |here| && 0 <= y < |rest| ==> here[x] != rest[y] by {
        forall x, y | 0 <= x < |here| && 0 <= y < |rest| ensures here[x] != rest[y] {
          assert here[x].0 == i < rest[y].0;
        }
      }
      here + rest
  }

  /** Which known table an unqualified column belongs to: the table of the
      one field named like it, provided exactly one field across all
      tables is. */
  function ResolveColumnTable(column: string, st: SourceTables): (r: Option<string>)
    ensures r.Some? ==> exists a, b :: (FieldNamed(st, a, b, column) && st[a].0 == r.value &&
      forall a', b' :: FieldNamed(st, a', b', column) ==> a' == a && b' == b)
    ensures r.None? ==> ((forall a, b :: !FieldNamed(st, a, b, column)) ||
      exists a, b, a', b' :: FieldNamed(st, a, b, column) && FieldNamed(st, a', b', column) && (a, b) != (a', b'))
  {
    var ps := MatchPositions(st, column, 0);
    if |ps| == 1 then
      assert FieldNamed(st, ps[0].0, ps[0].1, column);
      Some(st[ps[0].0].0)
    else
      assert ps != [] ==> FieldNamed(st, ps[0].0, ps[0].1, column) && FieldNamed(st, ps[1].0, ps[1].1, column) && ps[0] != ps[1];
      None
  }

  /** The table a column of the query comes from, if any. */
  function ResolveColumn(refs: OMap<string, string>, st: SourceTables, col: ColumnRef): (r: Option<string>)
  {
    if col.table != "" then
      var tref := Upper(col.table);
      Some(Get(refs, tref).GetOr(tref))
    else if |refs| == 1 then Some(refs[0].1)
    else ResolveColumnTable(col.name, st)
  }

  /** The resolved `(table, column)` pairs of some columns; a column
      without a (non-empty) table is dropped. */
  function Upstream(refs: OMap<string, string>, st: SourceTables, cols: seq<ColumnRef>): (r: seq<(string, string)>)
    ensures |r| <= |cols|
    ensures forall k :: 0 <= k < |r| ==> r[k].0 != "" && exists c :: c in cols && r[k].1 == c.name && ResolveColumn(refs, st, c) == Some(r[k].0)
    ensures forall c :: c in cols && ResolveColumn(refs, st, c).Some? && ResolveColumn(refs, st, c).value != "" ==>
      (ResolveColumn(refs, st, c).value, c.name) in r
  {
    if cols == [] then []
    else
      var t := ResolveColumn(refs, st, cols[0]);
      var rest := Upstream(refs, st, cols[1..]);
      assert forall c :: c in cols[1..] ==> c in cols;
      if t.Some? && t.value != "" then [(t.value, cols[0].name)] + rest else rest
  }

  /** One result per field of every known table: what `SELECT *` yields. */
  function StarLineage(st: SourceTables): (r: seq<ColumnLineage>)
  {
    if st == [] then []
    else FieldLineage(st[0].0, st[0].1) + StarLineage(st[1..])
  }

  function FieldLineage(table: string, fields: seq<string>): (r: seq<ColumnLineage>)
    ensures |r| == |fields|
    ensures forall k :: 0 <= k < |r| ==> r[k] == ColumnLineage([(table, fields[k])], fields[k], None)
  {
    if fields == [] then [] else [ColumnLineage([(table, fields[0])], fields[0], None)] + FieldLineage(table, fields[1..])
  }

  /** The results of the select item at position `i`. */
  function ItemLineage(refs: OMap<string, string>, st: SourceTables, item: SelectItem, i: nat): (r: seq<ColumnLineage>)
  {
    match item
    case StarItem => StarLineage(st)
    case AliasItem(alias, cols, text) =>
      var up := Upstream(refs, st, cols);
      if up == [] then [] else [ColumnLineage(up, alias, Some(text))]
    case ColumnItem(col, text) =>
      var up := Upstream(refs, st, [col]);
      if up == [] then [] else [ColumnLineage(up, col.name, Some(text))]
    case OtherItem(cols, text) =>
      var up := Upstream(refs, st, cols);
      if up == [] then [] else [ColumnLineage(up, "expr_" + NatToString(i), Some(text))]
  }

  /** The results of the select items from position `i` on. */
  function ItemsLineage(refs: OMap<string, string>, st: SourceTables, items: seq<SelectItem>, i: nat): (r: seq<ColumnLineage>)
    requires i <= |items|
    decreases |items| - i
  {
    if i == |items| then [] else ItemLineage(refs, st, items[i], i) + ItemsLineage(refs, st, items, i + 1)
  }

  /** The column lineage of a parsed query against the known source tables:
      nothing unless it is a SELECT; otherwise, item by item, the resolved
      upstream columns of each item that has any. */
  function ParseSql(q: SqlParse, st: SourceTables): (r: seq<ColumnLineage>)
    ensures !q.Select? ==> r == []
  {
    match q
    case Select(tables, items) => ItemsLineage(SourceRefs(tables, Keys(st)), st, items, 0)
    case _ => []
  }

  /** Every result names at least one upstream column; one with an
      expression has a table for each, and one without (from `*`) is a
      single field passed through under its own name. */
  lemma {:induction false} ItemsLineageShape(refs: OMap<string, string>, st: SourceTables, items: seq<SelectItem>, i: nat)
    requires i <= |items|
    ensures forall k :: 0 <= k < |ItemsLineage(refs, st, items, i)| ==> WellFormed(ItemsLineage(refs, st, items, i)[k])
    decreases |items| - i
  {
    if i < |items| {
      ItemsLineageShape(refs, st, items, i + 1);
      ItemLineageShape(refs, st, items[i], i);
      WellFormedAppend(ItemLineage(refs, st, items[i], i), ItemsLineage(refs, st, items, i + 1));
    }
  }

  lemma WellFormedAppend(a: seq<ColumnLineage>, b: seq<ColumnLineage>)
    requires forall k :: 0 <= k < |a| ==> WellFormed(a[k])
    requires forall k :: 0 <= k < |b| ==> WellFormed(b[k])
    ensures forall k :: 0 <= k < |a + b| ==> WellFormed((a + b)[k])
  {
    forall k | 0 <= k < |a + b| ensures WellFormed((a + b)[k]) {
      if k >= |a| {
        assert (a + b)[k] == b[k - |a|];
      }
    }
  }

  predicate WellFormed(c: ColumnLineage) {
    c.upstream != [] &&
    (c.expression.Some? ==> forall k :: 0 <= k < |c.upstream| ==> c.upstream[k].0 != "") &&
    (c.expression.None? ==> |c.upstream| == 1 && c.output == c.upstream[0].1)
  }

  lemma ItemLineageShape(refs: OMap<string, string>, st: SourceTables, item: SelectItem, i: nat)
    ensures forall k :: 0 <= k < |ItemLineage(refs, st, item, i)| ==> WellFormed(ItemLineage(refs, st, item, i)[k])
  {
    if item.StarItem? {
      StarLineageShape(st);
    }
  }

  lemma StarLineageShape(st: SourceTables)
    ensures forall k :: 0 <= k < |StarLineage(st)| ==> WellFormed(StarLineage(st)[k])
  {
  }

  /** A qualified column of a query names the target of the last table
      known by its qualifier, or stands for its qualifier upper-cased. */
  lemma ResolveQualified(tables: seq<TableRef>, known: seq<string>, st: SourceTables, col: ColumnRef)
    requires col.table != ""
    ensures (forall i :: 0 <= i < |tables| ==> RefKey(tables[i]) != Upper(col.table)) ==>
      ResolveColumn(SourceRefs(tables, known), st, col) == Some(Upper(col.table))
    ensures forall i :: (0 <= i < |tables| && RefKey(tables[i]) == Upper(col.table) &&
      (forall j :: i < j < |tables| ==> RefKey(tables[j]) != Upper(col.table))) ==>
      ResolveColumn(SourceRefs(tables, known), st, col) == Some(RefTarget(tables[i], known))
  {
    SourceRefsGet(tables, known, Upper(col.table));
  }

  /** The alias map has one entry when all tables share a key, at least
      two when two tables differ in key, none without tables. */
  lemma SourceRefsSize(tables: seq<TableRef>, known: seq<string>)
    ensures tables == [] ==> SourceRefs(tables, known) == []
    ensures tables != [] && (forall i :: 0 <= i < |tables| ==> RefKey(tables[i]) == RefKey(tables[0])) ==>
      |SourceRefs(tables, known)| == 1
    ensures (exists i, j :: 0 <= i < j < |tables| && RefKey(tables[i]) != RefKey(tables[j])) ==>
      |SourceRefs(tables, known)| >= 2
  {
    var e := RefEntries(tables, known);
    if tables != [] && (forall i :: 0 <= i < |tables| ==> RefKey(tables[i]) == RefKey(tables[0])) {
      FromPairsOne(e);
    }
    if exists i, j :: 0 <= i < j < |tables| && RefKey(tables[i]) != RefKey(tables[j]) {
      var i, j :| 0 <= i < j < |tables| && RefKey(tables[i]) != RefKey(tables[j]);
      FromPairsTwo(e, i, j);
    }
  }

  /** An unqualified column of a query whose tables all share one key
      belongs to the last of them. */
  lemma ResolveSingleTable(tables: seq<TableRef>, known: seq<string>, st: SourceTables, col: ColumnRef)
    requires col.table == "" && tables != []
    requires forall i :: 0 <= i < |tables| ==> RefKey(tables[i]) == RefKey(tables[0])
    ensures ResolveColumn(SourceRefs(tables, known), st, col) == Some(RefTarget(tables[|tables| - 1], known))
  {
    var refs := SourceRefs(tables, known);
    var k := RefKey(tables[0]);
    SourceRefsSize(tables, known);
    SourceRefsGet(tables, known, k);
    assert Get(refs, k) == Some(refs[0].1);
  }

  /** An unqualified column of a query with tables under two different
      keys, or with no tables, is looked up by field name. */
  lemma ResolveManyTables(tables: seq<TableRef>, known: seq<string>, st: SourceTables, col: ColumnRef)
    requires col.table == ""
    requires tables == [] || exists i, j :: 0 <= i < j < |tables| && RefKey(tables[i]) != RefKey(tables[j])
    ensures ResolveColumn(SourceRefs(tables, known), st, col) == ResolveColumnTable(col.name, st)
  {
    SourceRefsSize(tables, known);
  }

  /** Field `b` of table `a` passed through as a `*` result. */
  function StarResult(st: SourceTables, a: int, b: int): ColumnLineage
    requires 0 <= a < |st| && 0 <= b < |st[a].1|
  {
    ColumnLineage([(st[a].0, st[a].1[b])], st[a].1[b], None)
  }

  /** `SELECT *` yields exactly one pass-through result per field of every
      known table. */
  lemma {:induction false} StarLineageFields(st: SourceTables)
    ensures forall a, b :: 0 <= a < |st| && 0 <= b < |st[a].1| ==> StarResult(st, a, b) in StarLineage(st)
    ensures forall c :: c in StarLineage(st) ==> exists a, b :: 0 <= a < |st| && 0 <= b < |st[a].1| && c == StarResult(st, a, b)
  {
    if st != [] {
      StarLineageFields(st[1..]);
      var here := FieldLineage(st[0].0, st[0].1);
      forall a, b | 0 <= a < |st| && 0 <= b < |st[a].1|
        ensures StarResult(st, a, b) in StarLineage(st)
      {
        if a == 0 {
          assert here[b] == StarResult(st, a, b);
        } else {
          assert StarResult(st, a, b) == StarResult(st[1..], a - 1, b);
        }
      }
      forall c | c in StarLineage(st)
        ensures exists a, b :: 0 <= a < |st| && 0 <= b < |st[a].1| && c == StarResult(st, a, b)
      {
        if c in here {
          var b :| 0 <= b < |here| && here[b] == c;
          assert c == StarResult(st, 0, b);
        } else {
          var a, b :| 0 <= a < |st[1..]| && 0 <= b < |st[1..][a].1| && c == StarResult(st[1..], a, b);
          assert c == StarResult(st, a + 1, b);
        }
      }
    }
  }

  // ---------------------------------------------------------------------
  // Stored procedure calls in SQL text.  Four patterns are tried in
  // order, each searched leftmost-first ignoring case, with no word
  // boundary before the keyword:
  //   CALL   ws+ [schema.]name ws* (
  //   EXECUTE ws+ [schema.]name
  //   BEGIN  ws+ [schema.]name ws* (
  //   {  ws* call ws+ [schema.]name ws* (
  // ---------------------------------------------------------------------

  /** A detected call: its schema ("" when unqualified) and procedure name. */
  datatype ProcCall = ProcCall(schema: string, name: string)

  /** The patterns, in the order they are tried. */
  datatype CallPattern = CallKeyword | ExecuteKeyword | BeginKeyword | BraceCall {
    function Priority(): nat {
      match this
      case CallKeyword => 0
      case ExecuteKeyword => 1
      case BeginKeyword => 2
      case BraceCall => 3
    }
  }

  /** A non-empty run of word characters. */
  predicate IsWord(w: string) {
    w != [] && forall k :: 0 <= k < |w| ==> IsWordChar(w[k])
  }

  /** An opening parenthesis after optional whitespace from `e`. */
  predicate ParenAfter(s: string, e: nat)
    requires e <= |s|
  {
    var k := SpaceEnd(s, e);
    k < |s| && s[k] == '('
  }

  /** `[schema.]name` at `q`, followed by `ws* (` when `paren` is set.
      The qualified reading is tried first; the bare reading is the
      fallback the regular expression backtracks to. */
  function QualifiedNameAt(s: string, q: nat, paren: bool): (r: Option<ProcCall>)
    requires q <= |s|
    ensures r.Some? ==> IsWord(r.value.name) && (r.value.schema == "" || IsWord(r.value.schema))
    ensures r.Some? ==> LiteralAt(s, q, if r.value.schema == "" then r.value.name else r.value.schema + "." + r.value.name)
  {
    var e1 := WordEnd(s, q);
    if e1 == q then None
    else
      var e2 := if e1 < |s| && s[e1] == '.' then WordEnd(s, e1 + 1) else e1;
      if e1 < |s| && s[e1] == '.' && e2 > e1 + 1 && (!paren || ParenAfter(s, e2)) then
        QualifiedLiteral(s, q, e1, e2);
        Some(ProcCall(s[q..e1], s[e1 + 1..e2]))
      else if !paren || ParenAfter(s, e1) then
        WordLiteral(s, q, e1);
        Some(ProcCall("", s[q..e1]))
      else None
  }

  /** A run of word characters is a word found where it starts. */
  lemma WordLiteral(s: string, q: nat, e: nat)
    requires q < e <= |s| && e == WordEnd(s, q)
    ensures IsWord(s[q..e]) && LiteralAt(s, q, s[q..e])
  {
  }

  /** Two runs of word characters around a dot read as "schema.name". */
  lemma QualifiedLiteral(s: string, q: nat, e1: nat, e2: nat)
    requires q < e1 && e1 + 1 < e2 <= |s| && s[e1] == '.'
    requires e1 == WordEnd(s, q) && e2 == WordEnd(s, e1 + 1)
    ensures IsWord(s[q..e1]) && IsWord(s[e1 + 1..e2])
    ensures s[q..e1] + "." + s[e1 + 1..e2] != ""
    ensures LiteralAt(s, q, s[q..e1] + "." + s[e1 + 1..e2])
  {
    assert s[q..e2] == s[q..e1] + s[e1..e2];
    assert s[e1..e2] == [s[e1]] + s[e1 + 1..e2];
    assert [s[e1]] == ".";
  }

  /** The match of one pattern starting exactly at `p`. */
  function CallAt(s: string, pat: CallPattern, p: nat): (r: Option<ProcCall>)
    ensures r.Some? ==> IsWord(r.value.name) && (r.value.schema == "" || IsWord(r.value.schema))
  {
    if p > |s| then None
    else
      match pat
      case CallKeyword => KeywordCallAt(s, p, "CALL", true)
      case ExecuteKeyword => KeywordCallAt(s, p, "EXECUTE", false)
      case BeginKeyword => KeywordCallAt(s, p, "BEGIN", true)
      case BraceCall =>
        if p < |s| && s[p] == '{' then KeywordCallAt(s, SpaceEnd(s, p + 1), "CALL", true) else None
  }

  /** Keyword, at least one whitespace, then the qualified name. */
  function KeywordCallAt(s: string, p: nat, kw: string, paren: bool): (r: Option<ProcCall>)
    requires p <= |s|
  {
    if KeywordAt(s, p, kw) then
      var q := SpaceEnd(s, p + |kw|);
      if q > p + |kw| then QualifiedNameAt(s, q, paren) else None
    else None
  }

  /** One pattern's matcher, position by position. */
  function Along(m: (CallPattern, nat) -> Option<ProcCall>, pat: CallPattern): nat -> Option<ProcCall> {
    (k: nat) => m(pat, k)
  }

  function Matcher(s: string): (CallPattern, nat) -> Option<ProcCall> {
    (pat: CallPattern, k: nat) => CallAt(s, pat, k)
  }

  /** The leftmost match, among positions `0..n`, of the first pattern
      that matches anywhere, for a matcher `m` of patterns at positions. */
  function FirstPatternMatch(m: (CallPattern, nat) -> Option<ProcCall>, n: nat): Option<ProcCall> {
    var a := FirstFrom(Along(m, CallKeyword), 0, n);
    var b := FirstFrom(Along(m, ExecuteKeyword), 0, n);
    var c := FirstFrom(Along(m, BeginKeyword), 0, n);
    var d := FirstFrom(Along(m, BraceCall), 0, n);
    if a.Some? then a else if b.Some? then b else if c.Some? then c else d
  }

  /** The stored procedure a SQL text calls: the leftmost match of the first
      pattern that matches anywhere in it. */
  function DetectStoredProcedureCall(s: string): (r: Option<ProcCall>)
    ensures r.Some? ==> IsWord(r.value.name) && (r.value.schema == "" || IsWord(r.value.schema))
  {
    var r := FirstPatternMatch(Matcher(s), |s|);
    assert r.Some? ==> IsWord(r.value.name) && (r.value.schema == "" || IsWord(r.value.schema)) by {
      if r.Some? {
        FirstPatternMatchFirst(Matcher(s), |s|);
        var pat: CallPattern, k: nat :| LeftmostOfFirst(Matcher(s), |s|, pat, k) && Matcher(s)(pat, k) == r;
        assert CallAt(s, pat, k) == r;
      }
    }
    r
  }

  /** One pattern's leftmost match, in terms of the matcher itself. */
  lemma AlongSearch(m: (CallPattern, nat) -> Option<ProcCall>, pat: CallPattern, n: nat)
    ensures FirstFrom(Along(m, pat), 0, n).None? <==> forall k: nat :: k <= n ==> m(pat, k).None?
    ensures FirstFrom(Along(m, pat), 0, n).Some? ==> exists k: nat :: (k <= n && m(pat, k) == FirstFrom(Along(m, pat), 0, n) &&
      forall j: nat :: j < k ==> m(pat, j).None?)
  {
    assert forall k: nat :: Along(m, pat)(k) == m(pat, k);
  }

  lemma FirstPatternMatchNone(m: (CallPattern, nat) -> Option<ProcCall>, n: nat)
    ensures FirstPatternMatch(m, n).None? <==> forall pat, k: nat :: k <= n ==> m(pat, k).None?
  {
    AlongSearch(m, CallKeyword, n);
    AlongSearch(m, ExecuteKeyword, n);
    AlongSearch(m, BeginKeyword, n);
    AlongSearch(m, BraceCall, n);
    if FirstPatternMatch(m, n).None? {
      forall pat, k: nat | k <= n ensures m(pat, k).None? {
        match pat
        case CallKeyword =>
        case ExecuteKeyword =>
        case BeginKeyword =>
        case BraceCall =>
      }
    }
  }

  /** Position `k` is the leftmost match of `pat`, and no earlier pattern
      matches at any position up to `n`. */
  predicate LeftmostOfFirst(m: (CallPattern, nat) -> Option<ProcCall>, n: nat, pat: CallPattern, k: nat) {
    k <= n && (forall j: nat :: j < k ==> m(pat, j).None?) &&
    (forall earlier: CallPattern, j: nat :: earlier.Priority() < pat.Priority() && j <= n ==> m(earlier, j).None?)
  }

  lemma FirstPatternMatchFirst(m: (CallPattern, nat) -> Option<ProcCall>, n: nat)
    requires FirstPatternMatch(m, n).Some?
    ensures exists pat: CallPattern, k: nat :: LeftmostOfFirst(m, n, pat, k) && m(pat, k) == FirstPatternMatch(m, n)
  {
    var r := FirstPatternMatch(m, n);
    var pat: CallPattern;
    AlongSearch(m, CallKeyword, n);
    if FirstFrom(Along(m, CallKeyword), 0, n).Some? {
      pat := CallKeyword;
    } else {
      AlongSearch(m, ExecuteKeyword, n);
      if FirstFrom(Along(m, ExecuteKeyword), 0, n).Some? {
        pat := ExecuteKeyword;
      } else {
        AlongSearch(m, BeginKeyword, n);
        if FirstFrom(Along(m, BeginKeyword), 0, n).Some? {
          pat := BeginKeyword;
        } else {
          AlongSearch(m, BraceCall, n);
          pat := BraceCall;
        }
      }
    }
    assert FirstFrom(Along(m, pat), 0, n) == r;
    var k := AlongWitness(m, pat, n);
    forall earlier: CallPattern, j: nat | earlier.Priority() < pat.Priority() && j <= n
      ensures m(earlier, j).None?
    {
      match earlier
      case CallKeyword =>
      case ExecuteKeyword =>
      case BeginKeyword =>
      case BraceCall =>
    }
    assert LeftmostOfFirst(m, n, pat, k) && m(pat, k) == r;
  }

  /** The position of one pattern's leftmost match. */
  lemma AlongWitness(m: (CallPattern, nat) -> Option<ProcCall>, pat: CallPattern, n: nat) returns (k: nat)
    requires FirstFrom(Along(m, pat), 0, n).Some?
    ensures k <= n && m(pat, k) == FirstFrom(Along(m, pat), 0, n) && forall j: nat :: j < k ==> m(pat, j).None?
  {
    AlongSearch(m, pat, n);
    k :| k <= n && m(pat, k) == FirstFrom(Along(m, pat), 0, n) && forall j: nat :: j < k ==> m(pat, j).None?;
  }

  /** Nothing is detected exactly when no pattern matches anywhere. */
  lemma DetectNone(s: string)
    ensures DetectStoredProcedureCall(s).None? <==> forall pat, k: nat :: k <= |s| ==> CallAt(s, pat, k).None?
  {
    FirstPatternMatchNone(Matcher(s), |s|);
    assert forall pat, k: nat :: Matcher(s)(pat, k) == CallAt(s, pat, k);
  }

  /** What is detected is the leftmost match of the first pattern that
      matches anywhere. */
  lemma DetectFirst(s: string)
    requires DetectStoredProcedureCall(s).Some?
    ensures exists pat: CallPattern, k: nat :: (k <= |s| && CallAt(s, pat, k) == DetectStoredProcedureCall(s) &&
      (forall j: nat :: j < k ==> CallAt(s, pat, j).None?) &&
      (forall earlier: CallPattern, j: nat :: earlier.Priority() < pat.Priority() && j <= |s| ==> CallAt(s, earlier, j).None?))
  {
    FirstPatternMatchFirst(Matcher(s), |s|);
    var pat: CallPattern, k: nat :| LeftmostOfFirst(Matcher(s), |s|, pat, k) &&
      Matcher(s)(pat, k) == DetectStoredProcedureCall(s);
    assert forall pat, k: nat :: Matcher(s)(pat, k) == CallAt(s, pat, k);
    assert k <= |s| && CallAt(s, pat, k) == DetectStoredProcedureCall(s) &&
      (forall j: nat :: j < k ==> CallAt(s, pat, j).None?) &&
      (forall earlier: CallPattern, j: nat :: earlier.Priority() < pat.Priority() && j <= |s| ==> CallAt(s, earlier, j).None?);
  }

  /** A keyword cannot occur where one of its letters occurs in neither case. */
  lemma KeywordAbsent(s: string, kw: string, m: nat)
    requires m < |kw| && IsUpperLetter(kw[m])
    requires forall i :: 0 <= i < |s| ==> s[i] != kw[m] && s[i] != LowerChar(kw[m])
    ensures forall p: nat :: !KeywordAt(s, p, kw)
  {
    forall p: nat | p + |kw| <= |s| ensures !KeywordAt(s, p, kw) {
      UpperCharOther(s[p + m], kw[m]);
      assert Upper(s[p..p + |kw|])[m] != Upper(kw)[m];
    }
  }

  /** A character other than an upper-case letter and its lower-case form
      does not upper-case to that letter. */
  lemma UpperCharOther(c: char, u: char)
    requires IsUpperLetter(u) && c != u && c != LowerChar(u)
    ensures UpperChar(c) != UpperChar(u)
  {
  }

  /** When the match at position 0 of some pattern is the only match of
      that pattern and every earlier pattern, it is what is detected. */
  lemma DetectAtStart(s: string, pat: CallPattern)
    requires CallAt(s, pat, 0).Some?
    requires forall earlier: CallPattern, j: nat :: earlier.Priority() < pat.Priority() ==> CallAt(s, earlier, j).None?
    ensures DetectStoredProcedureCall(s) == CallAt(s, pat, 0)
  {
    var m := Matcher(s);
    assert forall earlier: CallPattern, j: nat :: m(earlier, j) == CallAt(s, earlier, j);
    FirstAtStart(m, |s|, pat);
  }

  /** For any matcher: a match of a pattern at position 0, with no match
      of an earlier pattern anywhere, is the first pattern match. */
  lemma FirstAtStart(m: (CallPattern, nat) -> Option<ProcCall>, n: nat, pat: CallPattern)
    requires m(pat, 0).Some?
    requires forall earlier: CallPattern, j: nat :: earlier.Priority() < pat.Priority() ==> m(earlier, j).None?
    ensures FirstPatternMatch(m, n) == m(pat, 0)
  {
    FirstPatternMatchNone(m, n);
    FirstPatternMatchFirst(m, n);
    var p: CallPattern, k: nat :| LeftmostOfFirst(m, n, p, k) && m(p, k) == FirstPatternMatch(m, n);
    assert p.Priority() < pat.Priority() ==> m(p, k).None?;
    PriorityInjective(p, pat);
    var start: nat := 0;
    assert 0 < k ==> m(pat, start).None?;
  }

  /** No two patterns share a priority. */
  lemma PriorityInjective(a: CallPattern, b: CallPattern)
    requires a.Priority() == b.Priority()
    ensures a == b
  {
    match a
    case CallKeyword =>
    case ExecuteKeyword =>
    case BeginKeyword =>
    case BraceCall =>
  }
}

/** Worked examples of the procedure-call scan on concrete SQL text. */
module InfaSqlExamples {
  import opened Basics
  import opened Text
  import opened InfaSql

  const BeginBlock := "BEGIN PKG.GET_KEY(:1,:2); END;"

  lemma PackageRun()
    ensures WordEnd(BeginBlock, 6) == 9
  {
    var s := BeginBlock;
    assert IsWordChar(s[6]) && IsWordChar(s[7]) && IsWordChar(s[8]) && !IsWordChar(s[9]);
    RunEndAt(s, 6, 9, IsWordChar);
  }

  lemma ProcedureRun()
    ensures WordEnd(BeginBlock, 10) == 17
  {
    var s := BeginBlock;
    assert IsWordChar(s[10]) && IsWordChar(s[11]) && IsWordChar(s[12]) && IsWordChar(s[13]);
    assert IsWordChar(s[14]) && IsWordChar(s[15]) && IsWordChar(s[16]) && !IsWordChar(s[17]);
    RunEndAt(s, 10, 17, IsWordChar);
  }

  lemma BeginBlockRuns()
    ensures WordEnd(BeginBlock, 6) == 9 && WordEnd(BeginBlock, 10) == 17 && SpaceEnd(BeginBlock, 17) == 17
  {
    PackageRun();
    ProcedureRun();
    assert !IsSpace(BeginBlock[17]);
    RunEndAt(BeginBlock, 17, 17, IsSpace);
  }

  lemma BeginBlockName()
    ensures QualifiedNameAt(BeginBlock, 6, true) == Some(ProcCall("PKG", "GET_KEY"))
  {
    BeginBlockRuns();
    BeginBlockWords();
  }

  lemma BeginBlockWords()
    ensures BeginBlock[9] == '.' && BeginBlock[17] == '('
    ensures BeginBlock[6..9] == "PKG" && BeginBlock[10..17] == "GET_KEY"
  {
    var s := BeginBlock;
    assert s[6] == 'P' && s[7] == 'K' && s[8] == 'G';
    assert s[10] == 'G' && s[11] == 'E' && s[12] == 'T' && s[13] == '_';
    assert s[14] == 'K' && s[15] == 'E' && s[16] == 'Y';
  }

  lemma BeginBlockKeyword()
    ensures KeywordAt(BeginBlock, 0, "BEGIN") && SpaceEnd(BeginBlock, 5) == 6
  {
    assert BeginBlock[..5] == "BEGIN";
    RunEndAt(BeginBlock, 5, 6, IsSpace);
  }

  lemma BeginBlockNoCall()
    ensures forall j: nat :: CallAt(BeginBlock, CallKeyword, j).None?
  {
    BeginBlockLetters();
    KeywordAbsent(BeginBlock, "CALL", 0);
  }

  lemma BeginBlockNoExecute()
    ensures forall j: nat :: CallAt(BeginBlock, ExecuteKeyword, j).None?
  {
    BeginBlockLetters();
    KeywordAbsent(BeginBlock, "EXECUTE", 1);
  }

  /** The block holds neither a C nor an X in either case. */
  lemma BeginBlockLetters()
    ensures forall i :: 0 <= i < |BeginBlock| ==>
      BeginBlock[i] != 'C' && BeginBlock[i] != 'c' && BeginBlock[i] != 'X' && BeginBlock[i] != 'x'
  {
  }

  /** An anonymous PL/SQL block calling a packaged function. */
  lemma DetectBeginBlock()
    ensures DetectStoredProcedureCall(BeginBlock) == Some(ProcCall("PKG", "GET_KEY"))
  {
    BeginBlockName();
    BeginBlockKeyword();
    BeginBlockNoEarlier();
    assert CallAt(BeginBlock, BeginKeyword, 0) == Some(ProcCall("PKG", "GET_KEY"));
    DetectAtStart(BeginBlock, BeginKeyword);
  }

  /** Neither pattern tried before BEGIN matches anywhere in the block. */
  lemma BeginBlockNoEarlier()
    ensures forall earlier: CallPattern, j: nat :: earlier.Priority() < BeginKeyword.Priority() ==> CallAt(BeginBlock, earlier, j).None?
  {
    BeginBlockNoCall();
    BeginBlockNoExecute();
    forall earlier: CallPattern, j: nat | earlier.Priority() < BeginKeyword.Priority()
      ensures CallAt(BeginBlock, earlier, j).None?
    {
      match earlier
      case CallKeyword =>
      case ExecuteKeyword =>
    }
  }
}
