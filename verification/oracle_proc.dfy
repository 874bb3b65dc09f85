/** The stored-procedure parser of the Oracle source
    (`oracle_stored_proc.py`): classification of a DML statement, the
    regular-expression scanners for table references, DML targets,
    EXECUTE IMMEDIATE and procedure calls, the line scan that turns a
    procedure's source into ordered substeps, and table-name
    normalisation. */
module OracleProc {
  import opened Basics
  import opened Text
  import opened Scan

  // ---------------------------------------------------------------------
  // Records

  /** One operation found in a procedure. `lineNum` is 1-based; nested
      calls carry 0. */
  datatype Substep = Substep(
    order: int,
    operation: Operation,
    tablesRead: set<string>,
    tablesWritten: set<string>,
    sqlPreview: Option<string>,
    nestedProcName: Option<string>,
    lineNum: int)

  datatype StoredProcedure = StoredProcedure(
    owner: string,
    name: string,
    procType: string,
    sourceLines: seq<string>,
    substeps: seq<Substep>,
    nestedCalls: set<string>,
    hasDynamicSql: bool,
    allTablesRead: set<string>,
    allTablesWritten: set<string>)

  /** The procedure's text: its lines joined with newlines. */
  function FullSource(p: StoredProcedure): string {
    Join(p.sourceLines, "\n")
  }

  // ---------------------------------------------------------------------
  // Classification

  /** The operation a substep records, with its string value. */
  datatype Operation = SqlInsert | SqlUpdate | SqlDelete | SqlMerge | SqlSelectInto | DynamicSql | ProcedureCall
  {
    function Value(): string {
      match this
      case SqlInsert => "SQL_INSERT"
      case SqlUpdate => "SQL_UPDATE"
      case SqlDelete => "SQL_DELETE"
      case SqlMerge => "SQL_MERGE"
      case SqlSelectInto => "SQL_SELECT_INTO"
      case DynamicSql => "DYNAMIC_SQL"
      case ProcedureCall => "PROCEDURE_CALL"
    }

    predicate IsWrite() {
      this == SqlInsert || this == SqlUpdate || this == SqlDelete || this == SqlMerge
    }

    /** The statement keyword of a write. */
    function Keyword(): string
      requires IsWrite()
    {
      match this
      case SqlInsert => "INSERT"
      case SqlUpdate => "UPDATE"
      case SqlDelete => "DELETE"
      case SqlMerge => "MERGE"
    }
  }

  predicate StartsDml(u: string) {
    StartsWith(u, "INSERT") || StartsWith(u, "UPDATE") || StartsWith(u, "DELETE") || StartsWith(u, "MERGE")
  }

  predicate SelectInto(u: string) {
    Contains(u, "SELECT") && Contains(u, "INTO")
  }

  /** The classification of upper-cased, stripped text: a leading INSERT,
      UPDATE, DELETE or MERGE names the operation; else text holding both
      SELECT and INTO is a SELECT INTO; else nothing. */
  function ClassifyKey(u: string): (r: Option<Operation>)
    ensures r.Some? ==> r.value.IsWrite() || r.value == SqlSelectInto
    ensures r.Some? && r.value.IsWrite() ==> StartsWith(u, r.value.Keyword())
    ensures StartsDml(u) ==> r.Some? && r.value.IsWrite()
    ensures r == Some(SqlSelectInto) <==> !StartsDml(u) && SelectInto(u)
    ensures r.None? <==> !StartsDml(u) && !SelectInto(u)
  {
    if StartsWith(u, "INSERT") then Some(SqlInsert)
    else if StartsWith(u, "UPDATE") then Some(SqlUpdate)
    else if StartsWith(u, "DELETE") then Some(SqlDelete)
    else if StartsWith(u, "MERGE") then Some(SqlMerge)
    else if SelectInto(u) then Some(SqlSelectInto)
    else None
  }

  /** `_classify_dml_operation`: the classification of the upper-cased,
      stripped text. */
  function ClassifyDml(snippet: string): Option<Operation> {
    ClassifyKey(Strip(Upper(snippet)))
  }

  /** Once a head decides the classification, text that continues it is
      classified the same. */
  lemma KeyPrefix(h: string, u: string)
    requires h <= u && (StartsDml(h) || SelectInto(h))
    ensures ClassifyKey(u) == ClassifyKey(h)
  {
    if |h| >= 6 {
      PrefixTransfer(h, u, "INSERT");
      PrefixTransfer(h, u, "UPDATE");
      PrefixTransfer(h, u, "DELETE");
      PrefixTransfer(h, u, "MERGE");
    } else {
      assert StartsWith(h, "MERGE");
      assert u[0] == h[0] == 'M';
      PrefixTransfer(h, u, "MERGE");
    }
    if SelectInto(h) {
      ContainsTransfer(h, u, "SELECT");
      ContainsTransfer(h, u, "INTO");
    }
  }

  /** A prefix at least as long as `kw` decides whether text starts with
      `kw`. */
  lemma PrefixTransfer(h: string, u: string, kw: string)
    requires h <= u && |kw| <= |h|
    ensures StartsWith(u, kw) == StartsWith(h, kw)
  {
    assert u[..|kw|] == h[..|kw|];
  }

  /** What a prefix contains, the text contains. */
  lemma ContainsTransfer(h: string, u: string, sub: string)
    requires h <= u && Contains(h, sub)
    ensures Contains(u, sub)
  {
    var p :| 0 <= p <= |h| - |sub| && LiteralAt(h, p, sub);
    assert u[p..p + |sub|] == h[p..p + |sub|];
    assert LiteralAt(u, p, sub);
  }

  /** Text whose head already decides the classification (a leading DML
      keyword, or a SELECT and an INTO) is classified as that head,
      whatever follows it. */
  lemma ClassifyByHead(head: string, text: string)
    requires head <= text
    requires StartsDml(Strip(Upper(head))) || SelectInto(Strip(Upper(head)))
    ensures ClassifyDml(text) == ClassifyDml(head)
  {
    var tail := text[|head|..];
    assert text == head + tail;
    UpperAppend(head, tail);
    StripPrefix(Upper(head), Upper(tail));
    KeyPrefix(Strip(Upper(head)), Strip(Upper(text)));
  }

  // ---------------------------------------------------------------------
  // Scanners

  /** A run of word characters joined by single dots, `\w+(?:\.\w+)*`,
      from a word character at `p`: a dot not followed by a word
      character ends it. */
  function DottedEnd(s: string, p: nat): (e: nat)
    requires p < |s| && IsWordChar(s[p])
    ensures p < e <= |s|
    ensures forall k :: p <= k < e ==> IsWordChar(s[k]) || s[k] == '.'
    ensures IsWordChar(s[e - 1])
    ensures e == |s| || !IsWordChar(s[e])
    decreases |s| - p
  {
    var w := WordEnd(s, p);
    if w + 1 < |s| && s[w] == '.' && IsWordChar(s[w + 1]) then DottedEnd(s, w + 1) else w
  }

  /** `(?:(?:\w+\.){0,2})\w+` from a word character at `p`: at most three
      dotted words. */
  function QualifiedEnd(s: string, p: nat): (e: nat)
    requires p < |s| && IsWordChar(s[p])
    ensures p < e <= |s|
    ensures forall k :: p <= k < e ==> IsWordChar(s[k]) || s[k] == '.'
    ensures IsWordChar(s[e - 1])
    ensures e == |s| || !IsWordChar(s[e])
  {
    var e1 := WordEnd(s, p);
    if e1 + 1 < |s| && s[e1] == '.' && IsWordChar(s[e1 + 1]) then
      var e2 := WordEnd(s, e1 + 1);
      if e2 + 1 < |s| && s[e2] == '.' && IsWordChar(s[e2 + 1]) then WordEnd(s, e2 + 1) else e2
    else e1
  }

  /** `FROM|JOIN|INTO|UPDATE|MERGE\s+INTO` at `p`, case-insensitive: where
      the keyword ends. */
  function TableKeywordEnd(s: string, p: nat): (r: Option<nat>)
    ensures r.Some? ==> p < r.value <= |s|
  {
    if KeywordAt(s, p, "FROM") || KeywordAt(s, p, "JOIN") || KeywordAt(s, p, "INTO") then Some(p + 4)
    else if KeywordAt(s, p, "UPDATE") then Some(p + 6)
    else if KeywordAt(s, p, "MERGE") then
      var b := SpaceEnd(s, p + 5);
      if b > p + 5 && KeywordAt(s, b, "INTO") then Some(b + 4) else None
    else None
  }

  /** `\b(FROM|JOIN|INTO|UPDATE|MERGE\s+INTO)\s+((?:(?:\w+\.){0,2})\w+)\b`,
      case-insensitive: the referenced table. */
  function TableRefAt(s: string, p: nat): (r: Option<Hit<string>>)
    ensures r.Some? ==> p < r.value.end <= |s|
    ensures r.Some? ==> r.value.value != [] && IsWordChar(r.value.value[0])
  {
    if !StartsWord(s, p) then None
    else match TableKeywordEnd(s, p)
      case None => None
      case Some(k) =>
        var b := SpaceEnd(s, k);
        if b == k || b == |s| || !IsWordChar(s[b]) then None
        else
          var e := QualifiedEnd(s, b);
          Some(Hit(s[b..e], e))
  }

  /** The table texts the pattern finds, left to right. */
  function TableRefs(sql: string): seq<string> {
    FindAll(sql, 0, TableRefAt)
  }

  /** `_extract_tables_from_sql`: the upper-cased table references. */
  function ExtractTablesFromSql(sql: string): (r: set<string>)
    ensures forall t :: t in r <==> exists x :: x in TableRefs(sql) && Upper(x) == t
  {
    set x | x in TableRefs(sql) :: Upper(x)
  }

  /** `INSERT|UPDATE|DELETE|MERGE` at `p`, case-insensitive. */
  function DmlKeywordEnd(s: string, p: nat): (r: Option<nat>)
    ensures r.Some? ==> p < r.value <= |s|
  {
    if KeywordAt(s, p, "INSERT") || KeywordAt(s, p, "UPDATE") || KeywordAt(s, p, "DELETE") then Some(p + 6)
    else if KeywordAt(s, p, "MERGE") then Some(p + 5)
    else None
  }

  /** `\b(INSERT|UPDATE|DELETE|MERGE)\s+(?:INTO\s+)?(\w+(?:\.\w+)*)`,
      case-insensitive: the statement's target. The optional INTO is
      taken when a name follows it; otherwise the word after the keyword
      is the name, whatever it is. */
  function DmlTargetAt(s: string, p: nat): (r: Option<Hit<string>>)
    ensures r.Some? ==> p < r.value.end <= |s|
  {
    if !StartsWord(s, p) then None
    else match DmlKeywordEnd(s, p)
      case None => None
      case Some(k) =>
        var b := SpaceEnd(s, k);
        if b == k then None
        else
          var c := if KeywordAt(s, b, "INTO") then SpaceEnd(s, b + 4) else b;
          if c > b + 4 && c < |s| && IsWordChar(s[c]) then Some(Hit(s[c..DottedEnd(s, c)], DottedEnd(s, c)))
          else if b < |s| && IsWordChar(s[b]) then Some(Hit(s[b..DottedEnd(s, b)], DottedEnd(s, b)))
          else None
  }

  predicate IsSemicolon(c: char) { c == ';' }

  /** `\bEXECUTE\s+IMMEDIATE\s+([^;]+)`, case-insensitive: the dynamic SQL
      text up to the first ";". When a ";" or the end follows the spaces
      at once, the engine gives the last space back to the group, which
      it can only do when there were two spaces or more. */
  function ExecuteImmediateAt(s: string, p: nat): (r: Option<Hit<string>>)
    ensures r.Some? ==> p < r.value.end <= |s| && r.value.value != [] && ';' !in r.value.value
  {
    if !StartsWord(s, p) || !KeywordAt(s, p, "EXECUTE") then None
    else
      var a := SpaceEnd(s, p + 7);
      if a == p + 7 || !KeywordAt(s, a, "IMMEDIATE") then None
      else
        var b := a + 9;
        var c := SpaceEnd(s, b);
        if c == b then None
        else if c < |s| && s[c] != ';' then
          var e := FindFrom(s, c, IsSemicolon);
          Some(Hit(s[c..e], e))
        else if c - b >= 2 then
          assert IsSpace(s[c - 1]);
          Some(Hit(s[c - 1..c], c))
        else None
  }

  /** `(\w+(?:\.\w+)*)\s*\(` at `p`: a dotted name, optional whitespace,
      an opening parenthesis. Only the longest name can be followed by
      the parenthesis, so there is nothing to backtrack into. */
  function CallNameAt(s: string, p: nat): (r: Option<Hit<string>>)
    ensures r.Some? ==> p < r.value.end <= |s| && r.value.value != []
  {
    if p >= |s| || !IsWordChar(s[p]) then None
    else
      var e := DottedEnd(s, p);
      var b := SpaceEnd(s, e);
      if b < |s| && s[b] == '(' then Some(Hit(s[p..e], b + 1)) else None
  }

  /** `\b(?:CALL\s+|EXECUTE\s+)?(\w+(?:\.\w+)*)\s*\(`, case-insensitive:
      the called name, after an optional CALL or EXECUTE; when the name
      after the prefix is not followed by a parenthesis, the prefix word
      itself is tried as the name. */
  function CallAt(s: string, p: nat): (r: Option<Hit<string>>)
    ensures r.Some? ==> p < r.value.end <= |s| && r.value.value != []
  {
    if !StartsWord(s, p) then None
    else
      var prefixed :=
        if KeywordAt(s, p, "CALL") && SpaceEnd(s, p + 4) > p + 4 then CallNameAt(s, SpaceEnd(s, p + 4))
        else if KeywordAt(s, p, "EXECUTE") && SpaceEnd(s, p + 7) > p + 7 then CallNameAt(s, SpaceEnd(s, p + 7))
        else None;
      if prefixed.Some? then prefixed else CallNameAt(s, p)
  }

  /** The PL/SQL built-ins the call finder ignores. */
  const CallExclusions: set<string> := {"DBMS_OUTPUT.PUT_LINE", "DBMS_SQL", "UTL_FILE",
    "RAISE_APPLICATION_ERROR", "TO_CHAR", "TO_DATE", "NVL", "DECODE"}

  /** `_find_procedure_calls`: the upper-cased names of every call, minus
      the built-ins. */
  function FindProcedureCalls(source: string): (r: set<string>)
    ensures r !! CallExclusions
    ensures forall x :: x in r <==>
      x !in CallExclusions && exists n :: n in FindAll(source, 0, CallAt) && Upper(n) == x
  {
    set n | n in FindAll(source, 0, CallAt) && Upper(n) !in CallExclusions :: Upper(n)
  }

  // ----- the calls, read off the characters -----

  /** A dotted name starts at `p` and not inside another: a word character
      preceded neither by a word character nor by a dot that ends a word. */
  predicate NameStart(s: string, p: nat) {
    p < |s| && IsWordChar(s[p]) &&
    (p == 0 || (!IsWordChar(s[p - 1]) && !(p >= 2 && s[p - 1] == '.' && IsWordChar(s[p - 2]))))
  }

  /** A whole dotted name at `p`, then optional whitespace and `(`. */
  predicate CallSite(s: string, p: nat) {
    NameStart(s, p) && SpaceEnd(s, DottedEnd(s, p)) < |s| && s[SpaceEnd(s, DottedEnd(s, p))] == '('
  }

  /** The name of the call at `p`. */
  function CallName(s: string, p: nat): string
    requires CallSite(s, p)
  {
    s[p..DottedEnd(s, p)]
  }

  /** Just after the call's opening parenthesis. */
  function CallEnd(s: string, p: nat): nat
    requires CallSite(s, p)
  {
    SpaceEnd(s, DottedEnd(s, p)) + 1
  }

  /** Every dot inside a dotted name follows a word character. */
  lemma {:induction false} DottedDots(s: string, p: nat)
    requires p < |s| && IsWordChar(s[p])
    ensures forall k :: p <= k < DottedEnd(s, p) && s[k] == '.' ==> p < k && IsWordChar(s[k - 1])
    decreases |s| - p
  {
    var w := WordEnd(s, p);
    if w + 1 < |s| && s[w] == '.' && IsWordChar(s[w + 1]) {
      DottedDots(s, w + 1);
    }
  }

  /** The start of the run of word characters holding position `k`. */
  function WordStart(s: string, k: nat): (w: nat)
    requires k < |s| && IsWordChar(s[k])
    ensures w <= k && (w == 0 || !IsWordChar(s[w - 1]))
    ensures forall j :: w <= j <= k ==> IsWordChar(s[j])
  {
    if k == 0 || !IsWordChar(s[k - 1]) then k else WordStart(s, k - 1)
  }

  /** Walking back from the start of a word over `word.` links reaches the
      start of the whole dotted name, which ends where the word's does. */
  lemma {:induction false} ChainStart(s: string, p: nat) returns (p0: nat)
    requires p < |s| && IsWordChar(s[p]) && (p == 0 || !IsWordChar(s[p - 1]))
    ensures p0 <= p && NameStart(s, p0) && DottedEnd(s, p0) == DottedEnd(s, p)
    decreases p
  {
    if NameStart(s, p) {
      p0 := p;
    } else {
      var w := WordStart(s, p - 2);
      RunEndAt(s, w, p - 1, IsWordChar);
      assert DottedEnd(s, w) == DottedEnd(s, p);
      p0 := ChainStart(s, w);
    }
  }

  /** No other dotted name starts inside a call. */
  lemma NoNameInsideCall(s: string, p: nat)
    requires CallSite(s, p)
    ensures forall k :: p < k < CallEnd(s, p) ==> !NameStart(s, k)
  {
    var e := DottedEnd(s, p);
    DottedDots(s, p);
    forall k | e <= k < CallEnd(s, p) ensures !IsWordChar(s[k]) {
      if k < SpaceEnd(s, e) {
        SpaceNotWord(s[k]);
      }
    }
  }

  lemma SpaceNotWord(c: char)
    requires IsSpace(c)
    ensures !IsWordChar(c) && c != '.' && c != '('
  {
  }

  /** The letters of a keyword found in a text are letters there too. */
  lemma KeywordLetters(s: string, p: nat, kw: string)
    requires KeywordAt(s, p, kw) && forall i :: 0 <= i < |kw| ==> IsUpperLetter(kw[i])
    ensures forall k :: p <= k < p + |kw| ==> IsLetter(s[k])
  {
    forall k | p <= k < p + |kw| ensures IsLetter(s[k]) {
      assert Upper(s[p..p + |kw|])[k - p] == UpperChar(s[k]);
      assert Upper(kw)[k - p] == UpperChar(kw[k - p]);
    }
  }

  /** After a CALL or EXECUTE prefix and whitespace, a name the call
      pattern reads is a call, and no other name starts in between. */
  lemma PrefixedSite(s: string, q: nat, kw: string, p1: nat)
    requires kw == "CALL" || kw == "EXECUTE"
    requires KeywordAt(s, q, kw) && p1 == SpaceEnd(s, q + |kw|) && p1 > q + |kw|
    requires CallNameAt(s, p1).Some?
    ensures q < p1 && CallSite(s, p1) && (forall k :: q <= k < p1 ==> !CallSite(s, k))
    ensures CallNameAt(s, p1) == Some(Hit(CallName(s, p1), CallEnd(s, p1)))
  {
    var n := q + |kw|;
    PrefixWordsUpper(kw);
    KeywordLetters(s, q, kw);
    SpaceNotWord(s[n]);
    SpaceNotWord(s[p1 - 1]);
    PrefixNoCall(s, q, n);
    forall k | n <= k < p1 ensures !IsWordChar(s[k]) {
      SpaceNotWord(s[k]);
    }
  }

  lemma PrefixWordsUpper(kw: string)
    requires kw == "CALL" || kw == "EXECUTE"
    ensures forall i :: 0 <= i < |kw| ==> IsUpperLetter(kw[i])
  {
  }

  /** A word of letters followed by whitespace and then a word character
      is no call. */
  lemma PrefixNoCall(s: string, q: nat, n: nat)
    requires q < n < |s| && forall k :: q <= k < n ==> IsLetter(s[k])
    requires !IsWordChar(s[n]) && s[n] != '.'
    requires SpaceEnd(s, n) < |s| && IsWordChar(s[SpaceEnd(s, n)])
    ensures !CallSite(s, q)
  {
    RunEndAt(s, q, n, IsWordChar);
    assert DottedEnd(s, q) == n;
  }

  /** Where the call pattern matches, it reads one call, and no other call
      starts before that call ends, provided none straddles `q`. */
  lemma CallAtSite(s: string, q: nat) returns (ps: nat)
    requires q <= |s| && CallAt(s, q).Some?
    requires forall p: nat :: p < q && CallSite(s, p) ==> CallEnd(s, p) <= q
    ensures q <= ps && CallSite(s, ps) && CallAt(s, q).value == Hit(CallName(s, ps), CallEnd(s, ps))
    ensures forall k: nat :: q <= k < CallEnd(s, ps) && CallSite(s, k) ==> k == ps
  {
    CallAtFrom(s, q);
    ps := NameFrom(s, q);
    NameFromPosition(s, q);
    NameSite(s, q, ps);
    OnlySiteIn(s, q, ps);
  }

  /** Where the call pattern reads its name: after a CALL or EXECUTE
      prefix and whitespace when a name can be read there, otherwise at
      `q` itself. */
  function NameFrom(s: string, q: nat): nat
    requires q <= |s|
  {
    if KeywordAt(s, q, "CALL") && SpaceEnd(s, q + 4) > q + 4 then
      (if CallNameAt(s, SpaceEnd(s, q + 4)).Some? then SpaceEnd(s, q + 4) else q)
    else if KeywordAt(s, q, "EXECUTE") && SpaceEnd(s, q + 7) > q + 7 then
      (if CallNameAt(s, SpaceEnd(s, q + 7)).Some? then SpaceEnd(s, q + 7) else q)
    else q
  }

  lemma CallAtFrom(s: string, q: nat)
    requires q <= |s|
    ensures CallAt(s, q) == if StartsWord(s, q) then CallNameAt(s, NameFrom(s, q)) else None
  {
  }

  /** The places the call pattern can read its name from: `q` itself, or
      past a CALL or EXECUTE prefix and whitespace. */
  predicate NamePosition(s: string, q: nat, n: nat) {
    n == q ||
    (KeywordAt(s, q, "CALL") && SpaceEnd(s, q + 4) > q + 4 && n == SpaceEnd(s, q + 4)) ||
    (KeywordAt(s, q, "EXECUTE") && SpaceEnd(s, q + 7) > q + 7 && n == SpaceEnd(s, q + 7))
  }

  lemma NameFromPosition(s: string, q: nat)
    requires q <= |s|
    ensures NamePosition(s, q, NameFrom(s, q))
  {
  }

  /** A name the pattern reads at the start of a word, unless an earlier
      call straddles `q`, is a whole call, and none starts before it. */
  lemma NameSite(s: string, q: nat, n: nat)
    requires q <= |s| && StartsWord(s, q) && NamePosition(s, q, n) && CallNameAt(s, n).Some?
    requires forall p: nat :: p < q && CallSite(s, p) ==> CallEnd(s, p) <= q
    ensures q <= n && CallSite(s, n)
    ensures CallNameAt(s, n) == Some(Hit(CallName(s, n), CallEnd(s, n)))
    ensures forall k :: q <= k < n ==> !CallSite(s, k)
  {
    if n == q {
      DirectSite(s, q);
    } else if KeywordAt(s, q, "CALL") && SpaceEnd(s, q + 4) > q + 4 && n == SpaceEnd(s, q + 4) {
      PrefixedSite(s, q, "CALL", n);
    } else {
      PrefixedSite(s, q, "EXECUTE", n);
    }
  }

  /** A call after a stretch without any is the only one that starts
      between the stretch's start and its own end. */
  lemma OnlySiteIn(s: string, q: nat, ps: nat)
    requires q <= ps && CallSite(s, ps) && forall k :: q <= k < ps ==> !CallSite(s, k)
    ensures forall k: nat :: q <= k < CallEnd(s, ps) && CallSite(s, k) ==> k == ps
  {
    NoNameInsideCall(s, ps);
  }

  /** A name the call pattern reads at the start of a word is a whole
      call, unless an earlier call straddles `q`. */
  lemma DirectSite(s: string, q: nat)
    requires StartsWord(s, q) && CallNameAt(s, q).Some?
    requires forall p: nat :: p < q && CallSite(s, p) ==> CallEnd(s, p) <= q
    ensures CallSite(s, q) && CallNameAt(s, q) == Some(Hit(CallName(s, q), CallEnd(s, q)))
  {
    if !NameStart(s, q) {
      var p0 := ChainStart(s, q);
      assert CallSite(s, p0);
    }
  }

  /** Where the call pattern fails, no call starts. */
  lemma NoCallNoSite(s: string, q: nat)
    requires q <= |s| && CallAt(s, q).None?
    ensures !CallSite(s, q)
  {
  }

  /** Some call starting at `q` or later is named `x`. */
  ghost predicate CallFrom(s: string, q: nat, x: string) {
    exists p: nat :: q <= p && CallSite(s, p) && CallName(s, p) == x
  }

  /** From a position that no call straddles, the scan finds exactly the
      names of the calls that start there or later. */
  lemma {:induction false} CallScan(s: string, q: nat)
    requires forall p: nat :: p < q && CallSite(s, p) ==> CallEnd(s, p) <= q
    ensures forall x :: x in FindAll(s, q, CallAt) <==> CallFrom(s, q, x)
    decreases |s| + 1 - q
  {
    if q > |s| {
      assert FindAll(s, q, CallAt) == [];
      forall x ensures !CallFrom(s, q, x) {
      }
    } else if CallAt(s, q).None? {
      NoCallNoSite(s, q);
      CallScan(s, q + 1);
      assert FindAll(s, q, CallAt) == FindAll(s, q + 1, CallAt);
      MissStep(s, q, q + 1);
    } else {
      var ps := CallAtSite(s, q);
      CallScan(s, CallEnd(s, ps));
      HitStep(s, q, ps);
    }
  }

  /** A position where the pattern fails adds no name to the scan. */
  lemma MissStep(s: string, q: nat, r: nat)
    requires r == q + 1 && FindAll(s, q, CallAt) == FindAll(s, r, CallAt) && !CallSite(s, q)
    requires forall x :: x in FindAll(s, r, CallAt) <==> CallFrom(s, r, x)
    ensures forall x :: x in FindAll(s, q, CallAt) <==> CallFrom(s, q, x)
  {
    forall x | CallFrom(s, q, x) ensures CallFrom(s, r, x) {
      var p: nat :| q <= p && CallSite(s, p) && CallName(s, p) == x;
      assert p != q;
    }
  }

  /** A position where the pattern reads the call at `ps` adds its name,
      and the scan resumes after it. */
  lemma HitStep(s: string, q: nat, ps: nat)
    requires q <= |s| && CallAt(s, q).Some?
    requires q <= ps && CallSite(s, ps) && CallAt(s, q).value == Hit(CallName(s, ps), CallEnd(s, ps))
    requires forall k: nat :: q <= k < CallEnd(s, ps) && CallSite(s, k) ==> k == ps
    requires forall x :: x in FindAll(s, CallEnd(s, ps), CallAt) <==> CallFrom(s, CallEnd(s, ps), x)
    ensures forall x :: x in FindAll(s, q, CallAt) <==> CallFrom(s, q, x)
  {
    var e := CallEnd(s, ps);
    assert FindAll(s, q, CallAt) == [CallName(s, ps)] + FindAll(s, e, CallAt);
    forall x | CallFrom(s, q, x) && x != CallName(s, ps) ensures CallFrom(s, e, x) {
      var p: nat :| q <= p && CallSite(s, p) && CallName(s, p) == x;
      assert p != ps;
    }
  }

  /** The procedure calls of a source are the upper-cased names of its
      call sites, the built-ins aside. */
  lemma FindProcedureCallsSpec(source: string)
    ensures forall x :: x in FindProcedureCalls(source) <==>
      x !in CallExclusions && exists p: nat :: CallSite(source, p) && Upper(CallName(source, p)) == x
  {
    CallScan(source, 0);
  }

  /** Any function-call syntax counts as a call, aggregates included:
      "SUM(" yields the call SUM. */
  lemma SumIsCall()
    ensures FindProcedureCalls("SUM(") == {"SUM"}
  {
    ThreeLetterCalls("SUM(");
    assert "SUM(" [..3] == "SUM";
  }

  /** The built-ins are dropped: "NVL(" yields no call. */
  lemma NvlIsNoCall()
    ensures FindProcedureCalls("NVL(") == {}
  {
    ThreeLetterCalls("NVL(");
    assert "NVL(" [..3] == "NVL";
  }

  /** The calls of such a text: its name, unless it is a built-in. */
  lemma ThreeLetterCalls(s: string)
    requires |s| == 4 && s[3] == '(' && s[0] != 'C'
    requires forall k :: 0 <= k < 3 ==> IsUpperLetter(s[k])
    ensures FindProcedureCalls(s) == if s[..3] in CallExclusions then {} else {s[..3]}
  {
    ThreeLetterCall(s);
    UpperLiteral(s[..3]);
  }

  /** A three-letter upper-case name not starting with C, then a
      parenthesis: the one call found is the name. */
  lemma ThreeLetterCall(s: string)
    requires |s| == 4 && s[3] == '(' && s[0] != 'C'
    requires forall k :: 0 <= k < 3 ==> IsUpperLetter(s[k])
    ensures FindAll(s, 0, CallAt) == [s[..3]]
  {
    NotKeyword(s, 0, "CALL", 0);
    assert WordEnd(s, 0) == 3 by {
      RunEndAt(s, 0, 3, IsWordChar);
    }
    assert DottedEnd(s, 0) == 3;
    assert SpaceEnd(s, 3) == 3 by {
      RunEndAt(s, 3, 3, IsSpace);
    }
    assert CallAt(s, 0) == Some(Hit(s[..3], 4));
    assert CallAt(s, 4).None?;
    assert FindAll(s, 4, CallAt) == [];
  }

  // ---------------------------------------------------------------------
  // Statement parsers

  /** `sql_snippet[:500]`. */
  function Preview(s: string): (r: string)
    ensures |r| <= 500 && r <= s
    ensures |s| <= 500 ==> r == s
  {
    SliceTo(s, 500)
  }

  /** `_parse_dml_statement`, without the query hash. A write takes the
      pattern's target as written and the other tables as read; without
      a target every table counts as written. A SELECT INTO reads all its
      tables. */
  function ParseDmlStatement(snippet: string, order: int, lineNum: int): (r: Option<Substep>)
    ensures r.None? <==> ClassifyDml(snippet).None?
    ensures r.Some? ==> r.value.operation == ClassifyDml(snippet).value
    ensures r.Some? ==> r.value.order == order && r.value.lineNum == lineNum
    ensures r.Some? ==> r.value.tablesRead !! r.value.tablesWritten
    ensures r.Some? && !r.value.operation.IsWrite() ==> r.value.tablesWritten == {}
    ensures r.Some? ==> r.value.tablesRead <= ExtractTablesFromSql(snippet)
    ensures r.Some? ==> r.value.sqlPreview == Some(Preview(snippet)) && r.value.nestedProcName.None?
  {
    match ClassifyDml(snippet)
    case None => None
    case Some(op) =>
      var tables := ExtractTablesFromSql(snippet);
      var rw: (set<string>, set<string>) :=
        if op.IsWrite() then
          match Search(snippet, DmlTargetAt)
          case Some(h) => (tables - {Upper(h.value)}, {Upper(h.value)})
          case None => ({}, tables)
        else (tables, {});
      Some(Substep(order, op, rw.0, rw.1, Some(Preview(snippet)), None, lineNum))
  }

  /** How a statement's tables are split: a write whose target the
      pattern finds writes exactly that target and reads every other
      table; a write without one writes every table; a SELECT INTO reads
      every table and writes none. */
  lemma DmlTablesSplit(snippet: string, order: int, lineNum: int)
    requires ClassifyDml(snippet).Some?
    ensures var r := ParseDmlStatement(snippet, order, lineNum).value;
      var tables := ExtractTablesFromSql(snippet);
      if !r.operation.IsWrite() then r.tablesRead == tables && r.tablesWritten == {}
      else match Search(snippet, DmlTargetAt)
        case Some(h) => r.tablesWritten == {Upper(h.value)} && r.tablesRead == tables - {Upper(h.value)}
        case None => r.tablesRead == {} && r.tablesWritten == tables
  {
  }

  /** "DELETE FROM t": the target pattern's optional group is INTO, not
      FROM, so the word FROM is taken as the written table and the table
      actually deleted from is recorded as read. */
  lemma DeleteFromQuirk(s: string, order: int, lineNum: int)
    requires |s| > 12 && s[..12] == "DELETE FROM " && IsWordChar(s[12])
    ensures var r := ParseDmlStatement(s, order, lineNum);
      r.Some? && r.value.operation == SqlDelete && r.value.tablesWritten == {"FROM"}
    ensures var t := Upper(s[12..QualifiedEnd(s, 12)]);
      t != "FROM" ==> t in ParseDmlStatement(s, order, lineNum).value.tablesRead
  {
    UpperFrom();
    DeleteIsDelete(s);
    DeleteTarget(s);
    DeleteTableFound(s);
    DeleteSplit(s, order, lineNum);
  }

  lemma UpperFrom()
    ensures Upper("FROM") == "FROM"
  {
    UpperLiteral("FROM");
  }

  /** The split of a DELETE statement whose target the pattern takes to
      be FROM. */
  lemma DeleteSplit(s: string, order: int, lineNum: int)
    requires ClassifyDml(s) == Some(SqlDelete) && Search(s, DmlTargetAt) == Some(Hit("FROM", 11))
    requires Upper("FROM") == "FROM"
    ensures var r := ParseDmlStatement(s, order, lineNum);
      r.Some? && r.value.operation == SqlDelete && r.value.tablesWritten == {"FROM"} &&
      r.value.tablesRead == ExtractTablesFromSql(s) - {"FROM"}
  {
  }

  /** Upper-casing leaves text without lower-case letters alone. */
  lemma UpperLiteral(s: string)
    requires forall k :: 0 <= k < |s| ==> !IsLowerLetter(s[k])
    ensures Upper(s) == s
  {
  }

  /** Text that differs from `kw` in some letter, whatever the case, is
      not the keyword. */
  lemma NotKeyword(s: string, p: nat, kw: string, j: nat)
    requires p + |kw| <= |s| && j < |kw| && UpperChar(s[p + j]) != UpperChar(kw[j])
    ensures !KeywordAt(s, p, kw)
  {
    assert Upper(s[p..p + |kw|])[j] == UpperChar(s[p + j]);
  }

  lemma DeleteIsDelete(s: string)
    requires |s| > 12 && s[..12] == "DELETE FROM "
    ensures ClassifyDml(s) == Some(SqlDelete)
  {
    var head := "DELETE";
    assert s[..6] == head;
    DeleteKey();
    ClassifyByHead(head, s);
  }

  lemma DeleteKey()
    ensures StartsDml(Strip(Upper("DELETE"))) && ClassifyDml("DELETE") == Some(SqlDelete)
  {
    DeleteKeyText();
    DeleteKeyClass();
  }

  lemma DeleteKeyText()
    ensures Strip(Upper("DELETE")) == "DELETE"
  {
    UpperLiteral("DELETE");
    StripUnspaced("DELETE");
  }

  lemma DeleteKeyClass()
    ensures StartsDml("DELETE") && ClassifyKey("DELETE") == Some(SqlDelete)
  {
    var u := "DELETE";
    assert !StartsWith(u, "INSERT") by {
      assert u[0] != "INSERT"[0];
    }
    assert !StartsWith(u, "UPDATE") by {
      assert u[0] != "UPDATE"[0];
    }
    assert StartsWith(u, "DELETE");
  }

  lemma DeleteTarget(s: string)
    requires |s| > 12 && s[..12] == "DELETE FROM " && IsWordChar(s[12])
    ensures Search(s, DmlTargetAt) == Some(Hit("FROM", 11))
  {
    DeleteKeyword(s);
    assert SpaceEnd(s, 6) == 7 by {
      assert s[6] == ' ' && s[7] == 'F';
      RunEndAt(s, 6, 7, IsSpace);
    }
    NotKeyword(s, 7, "INTO", 0);
    DeleteFromWord(s);
    assert DmlTargetAt(s, 0) == Some(Hit("FROM", 11));
  }

  /** Such a statement opens with the keyword DELETE. */
  lemma DeleteKeyword(s: string)
    requires |s| > 12 && s[..12] == "DELETE FROM "
    ensures DmlKeywordEnd(s, 0) == Some(6)
  {
    assert s[0] == 'D' && s[6] == ' ';
    NotKeyword(s, 0, "INSERT", 0);
    NotKeyword(s, 0, "UPDATE", 0);
    assert s[0..6] == "DELETE";
    UpperLiteral("DELETE");
  }

  /** The word FROM of such a statement, as a dotted name. */
  lemma DeleteFromWord(s: string)
    requires |s| > 12 && s[..12] == "DELETE FROM "
    ensures IsWordChar(s[7]) && DottedEnd(s, 7) == 11 && s[7..11] == "FROM"
  {
    assert s[7] == 'F' && s[8] == 'R' && s[9] == 'O' && s[10] == 'M' && s[11] == ' ';
    assert s[7..11] == "FROM";
    assert WordEnd(s, 7) == 11 by {
      RunEndAt(s, 7, 11, IsWordChar);
    }
  }

  lemma DeleteTableFound(s: string)
    requires |s| > 12 && s[..12] == "DELETE FROM " && IsWordChar(s[12])
    ensures Upper(s[12..QualifiedEnd(s, 12)]) in ExtractTablesFromSql(s)
  {
    var e := QualifiedEnd(s, 12);
    DeleteNoTableBefore(s);
    DeleteTableAt(s);
    FindAllSkip(s, 0, 7, TableRefAt);
    assert s[12..e] in TableRefs(s);
  }

  /** No table reference starts inside DELETE or at the space after it. */
  lemma DeleteNoTableBefore(s: string)
    requires |s| > 12 && s[..12] == "DELETE FROM "
    ensures forall k :: 0 <= k < 7 ==> TableRefAt(s, k).None?
  {
    assert s[0] == 'D';
    NotKeyword(s, 0, "FROM", 0);
    NotKeyword(s, 0, "JOIN", 0);
    NotKeyword(s, 0, "INTO", 0);
    NotKeyword(s, 0, "UPDATE", 0);
    NotKeyword(s, 0, "MERGE", 0);
    assert TableKeywordEnd(s, 0).None?;
    forall k | 1 <= k < 7
      ensures !StartsWord(s, k)
    {
      assert s[..6] == "DELETE";
      assert IsWordChar(s[k - 1]);
    }
  }

  /** The table reference after FROM. */
  lemma DeleteTableAt(s: string)
    requires |s| > 12 && s[..12] == "DELETE FROM " && IsWordChar(s[12])
    ensures TableRefAt(s, 7) == Some(Hit(s[12..QualifiedEnd(s, 12)], QualifiedEnd(s, 12)))
  {
    assert s[6] == ' ' && s[11] == ' ';
    assert s[7..11] == "FROM";
    UpperLiteral("FROM");
    assert TableKeywordEnd(s, 7) == Some(11);
    assert SpaceEnd(s, 11) == 12 by {
      RunEndAt(s, 11, 12, IsSpace);
    }
  }

  // ---------------------------------------------------------------------
  // The intended DML target

  /** `\b(INSERT|UPDATE|DELETE|MERGE)\s+(?:(?:INTO|FROM)\s+)?(\w+(?:\.\w+)*)`:
      the target pattern as its use intends, the first table being the
      written one, so DELETE's FROM is passed over as INSERT's INTO is. */
  function DmlTargetIntendedAt(s: string, p: nat): (r: Option<Hit<string>>)
    ensures r.Some? ==> p < r.value.end <= |s|
  {
    if !StartsWord(s, p) then None
    else match DmlKeywordEnd(s, p)
      case None => None
      case Some(k) =>
        var b := SpaceEnd(s, k);
        if b == k then None
        else
          var c := if KeywordAt(s, b, "INTO") || KeywordAt(s, b, "FROM") then SpaceEnd(s, b + 4) else b;
          if c > b + 4 && c < |s| && IsWordChar(s[c]) then Some(Hit(s[c..DottedEnd(s, c)], DottedEnd(s, c)))
          else if b < |s| && IsWordChar(s[b]) then Some(Hit(s[b..DottedEnd(s, b)], DottedEnd(s, b)))
          else None
  }

  /** A DML keyword at `p` followed by spaces and the word FROM: the only
      place the two target patterns part. */
  predicate FromAfterKeyword(s: string, p: nat) {
    StartsWord(s, p) && DmlKeywordEnd(s, p).Some? &&
    var k := DmlKeywordEnd(s, p).value;
    SpaceEnd(s, k) > k && KeywordAt(s, SpaceEnd(s, k), "FROM")
  }

  /** `_parse_dml_statement` with the intended target: as the program
      classifies and previews, but a write records the table after DELETE
      FROM as written. */
  function ParseDmlStatementIntended(snippet: string, order: int, lineNum: int): (r: Option<Substep>)
    ensures r.None? <==> ParseDmlStatement(snippet, order, lineNum).None?
    ensures r.Some? ==> r.value.tablesRead !! r.value.tablesWritten
    ensures r.Some? ==> r.value.tablesRead + r.value.tablesWritten >= ExtractTablesFromSql(snippet)
    ensures r.Some? ==> var w := ParseDmlStatement(snippet, order, lineNum).value;
      r.value.(tablesRead := w.tablesRead, tablesWritten := w.tablesWritten) == w
  {
    match ClassifyDml(snippet)
    case None => None
    case Some(op) =>
      var tables := ExtractTablesFromSql(snippet);
      var rw: (set<string>, set<string>) :=
        if op.IsWrite() then
          match Search(snippet, DmlTargetIntendedAt)
          case Some(h) => (tables - {Upper(h.value)}, {Upper(h.value)})
          case None => ({}, tables)
        else (tables, {});
      Some(Substep(order, op, rw.0, rw.1, Some(Preview(snippet)), None, lineNum))
  }

  /** Where no DML keyword is followed by FROM, the two target patterns
      match alike at every position. */
  lemma IntendedTargetAgrees(s: string, p: nat)
    requires !FromAfterKeyword(s, p)
    ensures DmlTargetIntendedAt(s, p) == DmlTargetAt(s, p)
  {
  }

  /** The correction changes nothing for statements without a DML keyword
      followed by FROM: INSERT INTO, UPDATE, MERGE INTO and the like parse
      as the program parses them. */
  lemma IntendedAgrees(s: string, order: int, lineNum: int)
    requires forall p :: 0 <= p <= |s| ==> !FromAfterKeyword(s, p)
    ensures ParseDmlStatementIntended(s, order, lineNum) == ParseDmlStatement(s, order, lineNum)
  {
    forall p | 0 <= p <= |s| ensures DmlTargetIntendedAt(s, p) == DmlTargetAt(s, p) {
      IntendedTargetAgrees(s, p);
    }
    SearchAgree(s, 0, DmlTargetIntendedAt, DmlTargetAt);
  }

  /** With the intended target, `DELETE FROM t …` writes `t` and reads the
      other tables; the word FROM is no table. */
  lemma DeleteFromIntended(s: string, order: int, lineNum: int)
    requires |s| > 12 && s[..12] == "DELETE FROM " && IsWordChar(s[12])
    ensures var r := ParseDmlStatementIntended(s, order, lineNum);
      var t := Upper(s[12..DottedEnd(s, 12)]);
      r.Some? && r.value.operation == SqlDelete &&
      r.value.tablesWritten == {t} && r.value.tablesRead == ExtractTablesFromSql(s) - {t}
  {
    DeleteIsDelete(s);
    DeleteIntendedTarget(s);
  }

  lemma DeleteIntendedTarget(s: string)
    requires |s| > 12 && s[..12] == "DELETE FROM " && IsWordChar(s[12])
    ensures Search(s, DmlTargetIntendedAt) == Some(Hit(s[12..DottedEnd(s, 12)], DottedEnd(s, 12)))
  {
    DeleteKeyword(s);
    assert SpaceEnd(s, 6) == 7 by {
      assert s[6] == ' ' && s[7] == 'F';
      RunEndAt(s, 6, 7, IsSpace);
    }
    assert s[7..11] == "FROM";
    UpperLiteral("FROM");
    assert KeywordAt(s, 7, "FROM");
    assert SpaceEnd(s, 11) == 12 by {
      assert s[11] == ' ';
      RunEndAt(s, 11, 12, IsSpace);
    }
    assert DmlTargetIntendedAt(s, 0) == Some(Hit(s[12..DottedEnd(s, 12)], DottedEnd(s, 12)));
  }

  /** `_parse_execute_immediate`, without the query hash: nothing when the
      pattern does not match; otherwise the dynamic SQL, stripped of
      whitespace and then of quotes, whose tables count as both read and
      written. */
  function ParseExecuteImmediate(snippet: string, order: int, lineNum: int): (r: Option<Substep>)
    ensures r.None? <==> forall k :: 0 <= k <= |snippet| ==> ExecuteImmediateAt(snippet, k).None?
    ensures r.Some? ==> r.value.operation == DynamicSql && r.value.order == order && r.value.lineNum == lineNum
    ensures r.Some? ==> r.value.tablesRead == r.value.tablesWritten
    ensures r.Some? ==> r.value.sqlPreview.Some? && |r.value.sqlPreview.value| <= 500
    ensures r.Some? ==> (Search(snippet, ExecuteImmediateAt).Some? &&
      r.value.tablesRead == ExtractTablesFromSql(StripQuotes(Strip(Search(snippet, ExecuteImmediateAt).value.value))))
  {
    SearchNone(snippet, 0, ExecuteImmediateAt);
    match Search(snippet, ExecuteImmediateAt)
    case None => None
    case Some(h) =>
      var dynamicSql := StripQuotes(Strip(h.value));
      var tables := ExtractTablesFromSql(dynamicSql);
      Some(Substep(order, DynamicSql, tables, tables, Some(Preview(dynamicSql)), None, lineNum))
  }

  // ---------------------------------------------------------------------
  // Statements of a procedure

  /** The first index at or after `j` whose line holds a ";", or the
      number of lines. */
  function SemicolonLine(lines: seq<string>, j: nat): (k: nat)
    requires j <= |lines|
    ensures j <= k <= |lines|
    ensures forall m :: j <= m < k ==> ';' !in lines[m]
    ensures k < |lines| ==> ';' in lines[k]
    decreases |lines| - j
  {
    if j == |lines| || ';' in lines[j] then j else SemicolonLine(lines, j + 1)
  }

  /** The lines the collection loop gathers, as written, for a statement
      starting on the 1-based line `i`: that line, then the lines at
      indices `i + 1` to `k`, `k` being the first index from `i` on
      holding a ";". The statement's own line is never checked for the
      ";", and the line after it is checked but never taken. */
  function CollectedLines(lines: seq<string>, i: nat): seq<string>
    requires 1 <= i <= |lines|
  {
    [lines[i - 1]] + lines[Min(i + 1, |lines|)..Min(SemicolonLine(lines, i) + 1, |lines|)]
  }

  /** The collection loop: look at the line, stop at a ";", else step to
      the next line and take it. */
  method CollectStatement(lines: seq<string>, i: nat) returns (stmt: seq<string>)
    requires 1 <= i <= |lines|
    ensures stmt == CollectedLines(lines, i)
    ensures |stmt| >= 1 && stmt[0] == lines[i - 1]
  {
    stmt := [lines[i - 1]];
    var j := i;
    while j < |lines|
      invariant i <= j <= |lines|
      invariant forall m :: i <= m < j ==> ';' !in lines[m]
      invariant stmt == [lines[i - 1]] + lines[Min(i + 1, |lines|)..Min(j + 1, |lines|)]
    {
      if ';' in lines[j] {
        break;
      }
      j := j + 1;
      if j < |lines| {
        assert lines[Min(i + 1, |lines|)..j + 1] == lines[Min(i + 1, |lines|)..j] + [lines[j]];
        stmt := stmt + [lines[j]];
      }
    }
  }

  /** The lines of the statement starting on the 1-based line `i`, as
      the loop is evidently meant to gather them: consecutive lines from
      the statement's own, up to and including the first that holds a
      ";" (or to the end). */
  function StatementLines(lines: seq<string>, i: nat): (r: seq<string>)
    requires 1 <= i <= |lines|
    ensures 1 <= |r| <= |lines| - i + 1 && r == lines[i - 1..i - 1 + |r|]
    ensures forall m :: 0 <= m < |r| - 1 ==> ';' !in r[m]
    ensures ';' in r[|r| - 1] || i - 1 + |r| == |lines|
  {
    lines[i - 1..Min(SemicolonLine(lines, i - 1) + 1, |lines|)]
  }

  /** The loop as written takes the statement's own line and then what
      the intended gathering would take from the next line on, less that
      next line itself. */
  lemma CollectedSkipsNext(lines: seq<string>, i: nat)
    requires 1 <= i < |lines|
    ensures CollectedLines(lines, i) == [lines[i - 1]] + StatementLines(lines, i + 1)[1..]
  {
  }

  /** The loop as written loses the line after the statement's first:
      an INSERT whose SELECT sits on the next line is cut short. */
  lemma CollectDropsSecondLine()
    ensures CollectedLines(["INSERT INTO t", "SELECT a FROM s;"], 1) == ["INSERT INTO t"]
    ensures StatementLines(["INSERT INTO t", "SELECT a FROM s;"], 1) == ["INSERT INTO t", "SELECT a FROM s;"]
  {
    var lines := ["INSERT INTO t", "SELECT a FROM s;"];
    assert ';' !in lines[0] by {
      assert forall k :: 0 <= k < |lines[0]| ==> lines[0][k] != ';';
    }
    assert lines[1][15] == ';';
    assert SemicolonLine(lines, 1) == 1;
    assert SemicolonLine(lines, 0) == 1;
  }

  /** The statement text: the lines the collection loop gathers, as
      written, joined with spaces. */
  function Snippet(lines: seq<string>, i: nat): (r: string)
    requires 1 <= i <= |lines|
    ensures lines[i - 1] <= r
  {
    var ls := CollectedLines(lines, i);
    if |ls| > 1 then
      assert Join(ls, " ") == lines[i - 1] + (" " + Join(ls[1..], " "));
      Join(ls, " ")
    else
      Join(ls, " ")
  }

  /** A line's key: upper-cased and stripped. */
  function LineKey(line: string): string {
    Strip(Upper(line))
  }

  /** Blank lines and lines starting a comment are passed over. */
  predicate IsSkipped(u: string) {
    u == [] || StartsWith(u, "--") || StartsWith(u, "/*")
  }

  /** A line that starts a statement: a DML keyword first, or else both
      SELECT and INTO somewhere. */
  predicate StatementLine(u: string) {
    !IsSkipped(u) && (StartsDml(u) || SelectInto(u))
  }

  /** A line that marks the procedure dynamic. */
  predicate DynamicLine(u: string) {
    !IsSkipped(u) && Contains(u, "EXECUTE IMMEDIATE")
  }

  /** The 1-based line `i` marks the procedure dynamic. */
  predicate DynamicAt(lines: seq<string>, i: int) {
    1 <= i <= |lines| && DynamicLine(LineKey(lines[i - 1]))
  }

  /** What the parsers make of one line before the scan numbers it:
      whether its key starts with a DML keyword, whether it marks the
      procedure dynamic, the substep of a statement line and the dynamic
      substep. The parsers take the running
      counter only to copy it into the substep, so the scan sets it. */
  datatype LineParse = LineParse(startsDml: bool, dynamicLine: bool, statement: Option<Substep>,
                                 dynamicSql: Option<Substep>)

  /** What the scan relies on in the parse of the 1-based line `i`. */
  predicate WellParsed(p: LineParse, i: int) {
    (p.statement.Some? ==> (p.statement.value.lineNum == i && p.statement.value.operation != ProcedureCall &&
      (!p.startsDml ==> p.statement.value.tablesWritten == {}))) &&
    (p.dynamicSql.Some? ==> (p.dynamicLine && p.dynamicSql.value.lineNum == i &&
      p.dynamicSql.value.operation == DynamicSql))
  }

  /** The statement text of a statement line is classified as the line
      itself, so it always yields a substep, and one that writes nothing
      when the line does not start with a DML keyword. */
  lemma StatementParse(lines: seq<string>, i: nat)
    requires 1 <= i <= |lines| && StatementLine(LineKey(lines[i - 1]))
    ensures var x := ParseDmlStatement(Snippet(lines, i), 0, i);
      x.Some? && x.value.operation == ClassifyDml(lines[i - 1]).value &&
      (!StartsDml(LineKey(lines[i - 1])) ==> x.value.tablesWritten == {})
  {
    StatementParseOf(lines[i - 1], Snippet(lines, i), i);
  }

  /** The same for any statement text that starts with the line. */
  lemma StatementParseOf(head: string, snippet: string, i: nat)
    requires head <= snippet && StatementLine(LineKey(head))
    ensures var x := ParseDmlStatement(snippet, 0, i);
      x.Some? && x.value.operation == ClassifyDml(head).value &&
      (!StartsDml(LineKey(head)) ==> x.value.tablesWritten == {})
  {
    SameClassification(head, snippet);
    var x := ParseDmlStatement(snippet, 0, i);
    assert x.Some?;
    assert x.value.operation == ClassifyDml(head).value;
  }

  /** A statement's text is classified as its first line. */
  lemma SameClassification(head: string, snippet: string)
    requires head <= snippet && StatementLine(LineKey(head))
    ensures ClassifyDml(snippet) == ClassifyDml(head)
  {
    ClassifyByHead(head, snippet);
  }

  /** The statement substep of the 1-based line `i`, numbered 0: only a
      statement line has one. */
  function LineStatement(lines: seq<string>, i: nat): (x: Option<Substep>)
    requires 1 <= i <= |lines|
    ensures x.Some? <==> StatementLine(LineKey(lines[i - 1]))
    ensures x.Some? ==> (x.value.lineNum == i && x.value.operation == ClassifyDml(lines[i - 1]).value &&
      (!StartsDml(LineKey(lines[i - 1])) ==> x.value.tablesWritten == {}))
  {
    if StatementLine(LineKey(lines[i - 1])) then
      StatementParse(lines, i);
      ParseDmlStatement(Snippet(lines, i), 0, i)
    else None
  }

  /** The dynamic substep of the 1-based line `i`, numbered 0: only a
      line marking the procedure dynamic may have one. */
  function LineDynamic(lines: seq<string>, i: nat): (x: Option<Substep>)
    requires 1 <= i <= |lines|
    ensures x.Some? ==> (DynamicLine(LineKey(lines[i - 1])) && x.value.lineNum == i &&
      x.value.operation == DynamicSql)
  {
    if DynamicLine(LineKey(lines[i - 1])) then ParseExecuteImmediate(Snippet(lines, i), 0, i) else None
  }

  /** The parse of the 1-based line `i`. */
  function ParseLine(lines: seq<string>, i: nat): (r: LineParse)
    requires 1 <= i <= |lines|
    ensures r.startsDml == StartsDml(LineKey(lines[i - 1])) && r.dynamicLine == DynamicLine(LineKey(lines[i - 1]))
    ensures r.statement.Some? <==> StatementLine(LineKey(lines[i - 1]))
    ensures r.statement.Some? ==> r.statement.value.operation == ClassifyDml(lines[i - 1]).value
    ensures WellParsed(r, i)
  {
    var u := LineKey(lines[i - 1]);
    LineParse(StartsDml(u), DynamicLine(u), LineStatement(lines, i), LineDynamic(lines, i))
  }

  function ParseLines(lines: seq<string>): (r: seq<LineParse>)
    ensures |r| == |lines| && forall k :: 0 <= k < |r| ==> r[k] == ParseLine(lines, k + 1)
  {
    seq(|lines|, k requires 0 <= k < |lines| => ParseLine(lines, k + 1))
  }

  predicate AllWellParsed(parses: seq<LineParse>) {
    forall k :: 0 <= k < |parses| ==> WellParsed(parses[k], k + 1)
  }

  /** The running state of the line scan. */
  datatype ProcScan = ProcScan(substeps: seq<Substep>, order: int, read: set<string>, written: set<string>,
                               dynamic: bool)

  function AddSubstep(st: ProcScan, x: Substep, addWritten: bool): ProcScan {
    st.(substeps := st.substeps + [x.(order := st.order)], order := st.order + 1, read := st.read + x.tablesRead,
        written := if addWritten then st.written + x.tablesWritten else st.written)
  }

  /** One line of the scan: the statement substep, whose written tables
      are recorded only for a line starting with a DML keyword; then,
      when dynamic SQL is parsed and the line holds EXECUTE IMMEDIATE,
      the dynamic mark and the dynamic substep if the pattern found one. */
  function ScanLine(st: ProcScan, p: LineParse, parseDynamic: bool): ProcScan {
    var st1 := if p.statement.Some? then AddSubstep(st, p.statement.value, p.startsDml) else st;
    if parseDynamic && p.dynamicLine then
      var st2 := st1.(dynamic := true);
      if p.dynamicSql.Some? then AddSubstep(st2, p.dynamicSql.value, true) else st2
    else st1
  }

  /** The scan over the first `n` lines. */
  function ScanLines(parses: seq<LineParse>, n: nat, parseDynamic: bool, init: ProcScan): ProcScan
    requires n <= |parses|
  {
    if n == 0 then init else ScanLine(ScanLines(parses, n - 1, parseDynamic, init), parses[n - 1], parseDynamic)
  }

  /** The union of the substeps' read tables and that of their written
      tables. */
  function UnionRead(ss: seq<Substep>): set<string> {
    if ss == [] then {} else UnionRead(ss[..|ss| - 1]) + ss[|ss| - 1].tablesRead
  }

  function UnionWritten(ss: seq<Substep>): set<string> {
    if ss == [] then {} else UnionWritten(ss[..|ss| - 1]) + ss[|ss| - 1].tablesWritten
  }

  /** The unions distribute over concatenation. */
  lemma {:induction false} UnionAppend(a: seq<Substep>, b: seq<Substep>)
    ensures UnionRead(a + b) == UnionRead(a) + UnionRead(b)
    ensures UnionWritten(a + b) == UnionWritten(a) + UnionWritten(b)
    decreases |b|
  {
    if b == [] {
      assert a + b == a;
    } else {
      var front := b[..|b| - 1];
      assert (a + b)[..|a + b| - 1] == a + front;
      UnionAppend(a, front);
    }
  }

  lemma UnionOne(x: Substep)
    ensures UnionRead([x]) == x.tablesRead && UnionWritten([x]) == x.tablesWritten
  {
    assert [x][..0] == [];
  }

  /** One line of the scan appends a statement substep when the line
      starts a statement, then possibly a dynamic one, numbered on from
      the counter and carrying the line's number; the tables grow by
      theirs, and the procedure becomes dynamic when the line marks it. */
  lemma ScanLineSpec(st: ProcScan, p: LineParse, i: int, parseDynamic: bool) returns (added: seq<Substep>)
    requires WellParsed(p, i)
    ensures var r := ScanLine(st, p, parseDynamic);
      r.substeps == st.substeps + added && r.order == st.order + |added| &&
      r.read == st.read + UnionRead(added) && r.written == st.written + UnionWritten(added) &&
      r.dynamic == (st.dynamic || (parseDynamic && p.dynamicLine))
    ensures forall k :: 0 <= k < |added| ==>
      (added[k].lineNum == i && added[k].order == st.order + k && added[k].operation != ProcedureCall)
    ensures p.statement.Some? ==> |added| >= 1 && added[0] == p.statement.value.(order := st.order)
  {
    var st1, a1 := st, [];
    if p.statement.Some? {
      st1, a1 := AddSubstep(st, p.statement.value, p.startsDml), [p.statement.value.(order := st.order)];
      AddSubstepSpec(st, p.statement.value, p.startsDml);
    }
    var a2 := [];
    if parseDynamic && p.dynamicLine && p.dynamicSql.Some? {
      a2 := [p.dynamicSql.value.(order := st1.order)];
      AddSubstepSpec(st1.(dynamic := true), p.dynamicSql.value, true);
    }
    added := a1 + a2;
    UnionAppend(a1, a2);
  }

  /** Adding a substep numbers it with the counter, appends it and adds
      its tables; written tables are left out only when it has none. */
  lemma AddSubstepSpec(st: ProcScan, x: Substep, addWritten: bool)
    requires addWritten || x.tablesWritten == {}
    ensures var r := AddSubstep(st, x, addWritten);
      var y := x.(order := st.order);
      r.substeps == st.substeps + [y] && r.order == st.order + 1 && r.dynamic == st.dynamic &&
      r.read == st.read + UnionRead([y]) && r.written == st.written + UnionWritten([y])
  {
    UnionOne(x.(order := st.order));
  }

  /** What the scan keeps from a start with no substeps and tables `read0`
      and `written0`: substep `k` has order `k`, the counter equals the
      number of substeps, line numbers lie within the first `n` lines and
      never decrease, and the tables read and written grow by exactly the
      substeps' tables. */
  predicate ScanInvariant(st: ProcScan, n: nat, read0: set<string>, written0: set<string>) {
    st.order == |st.substeps| &&
    (forall k :: 0 <= k < |st.substeps| ==> st.substeps[k].order == k) &&
    (forall k :: 0 <= k < |st.substeps| ==> 1 <= st.substeps[k].lineNum <= n) &&
    (forall k, m :: 0 <= k < m < |st.substeps| ==> st.substeps[k].lineNum <= st.substeps[m].lineNum) &&
    (forall k :: 0 <= k < |st.substeps| ==> st.substeps[k].operation != ProcedureCall) &&
    st.read == read0 + UnionRead(st.substeps) && st.written == written0 + UnionWritten(st.substeps)
  }

  /** The scan keeps its invariant over any number of lines. */
  lemma {:induction false} ScanLinesInvariant(parses: seq<LineParse>, n: nat, parseDynamic: bool, init: ProcScan)
    requires n <= |parses| && AllWellParsed(parses) && init.substeps == [] && init.order == 0
    ensures ScanInvariant(ScanLines(parses, n, parseDynamic, init), n, init.read, init.written)
  {
    if n > 0 {
      ScanLinesInvariant(parses, n - 1, parseDynamic, init);
      var st := ScanLines(parses, n - 1, parseDynamic, init);
      var added := ScanLineSpec(st, parses[n - 1], n, parseDynamic);
      InvariantGrows(st, ScanLines(parses, n, parseDynamic, init), added, n, init.read, init.written);
    }
  }

  /** Substeps numbered on from the counter and carrying line `n` keep
      the invariant of a scan of the first `n - 1` lines for `n` lines. */
  lemma InvariantGrows(st: ProcScan, r: ProcScan, added: seq<Substep>, n: nat, read0: set<string>,
                       written0: set<string>)
    requires n >= 1 && ScanInvariant(st, n - 1, read0, written0)
    requires r.substeps == st.substeps + added && r.order == st.order + |added|
    requires r.read == st.read + UnionRead(added) && r.written == st.written + UnionWritten(added)
    requires forall k :: 0 <= k < |added| ==>
      (added[k].lineNum == n && added[k].order == st.order + k && added[k].operation != ProcedureCall)
    ensures ScanInvariant(r, n, read0, written0)
  {
    UnionAppend(st.substeps, added);
    NumberedOn(st.substeps, added, n);
    LinesInOrder(st.substeps, added, n);
  }

  /** Numbered substeps within the first `n - 1` lines, followed by
      substeps numbered on from them on line `n`, are numbered and within
      the first `n` lines. */
  lemma NumberedOn(ss: seq<Substep>, added: seq<Substep>, n: nat)
    requires 1 <= n
    requires forall k :: 0 <= k < |ss| ==> ss[k].order == k && 1 <= ss[k].lineNum <= n - 1 && ss[k].operation != ProcedureCall
    requires forall k :: 0 <= k < |added| ==>
      (added[k].lineNum == n && added[k].order == |ss| + k && added[k].operation != ProcedureCall)
    ensures var all := ss + added;
      forall k :: 0 <= k < |all| ==> all[k].order == k && 1 <= all[k].lineNum <= n && all[k].operation != ProcedureCall
  {
    var all := ss + added;
    forall k | 0 <= k < |all|
      ensures all[k].order == k && 1 <= all[k].lineNum <= n && all[k].operation != ProcedureCall
    {
      if k < |ss| {
        assert all[k] == ss[k];
      } else {
        assert all[k] == added[k - |ss|];
      }
    }
  }

  /** Substeps within the first `n - 1` lines and in line order, followed
      by substeps of line `n`, are still in line order. */
  lemma LinesInOrder(ss: seq<Substep>, added: seq<Substep>, n: int)
    requires forall k :: 0 <= k < |ss| ==> ss[k].lineNum <= n - 1
    requires forall k, m :: 0 <= k < m < |ss| ==> ss[k].lineNum <= ss[m].lineNum
    requires forall k :: 0 <= k < |added| ==> added[k].lineNum == n
    ensures var all := ss + added;
      forall k, m :: 0 <= k < m < |all| ==> all[k].lineNum <= all[m].lineNum
  {
    var all := ss + added;
    forall k, m | 0 <= k < m < |all|
      ensures all[k].lineNum <= all[m].lineNum
    {
      if m < |ss| {
        assert all[k] == ss[k] && all[m] == ss[m];
      } else if k < |ss| {
        assert all[k] == ss[k] && all[m] == added[m - |ss|];
      } else {
        assert all[k] == added[k - |ss|] && all[m] == added[m - |ss|];
      }
    }
  }

  /** Each line's substeps come after the earlier lines' ones. */
  lemma {:induction false} ScanLinesGrow(parses: seq<LineParse>, m: nat, n: nat, parseDynamic: bool, init: ProcScan)
    requires m <= n <= |parses| && AllWellParsed(parses)
    ensures ScanLines(parses, m, parseDynamic, init).substeps <= ScanLines(parses, n, parseDynamic, init).substeps
    decreases n - m
  {
    if m < n {
      ScanLinesGrow(parses, m, n - 1, parseDynamic, init);
      var added := ScanLineSpec(ScanLines(parses, n - 1, parseDynamic, init), parses[n - 1], n, parseDynamic);
    }
  }

  /** Every statement line yields one substep, with the line's number and
      the operation its own text decides. */
  lemma StatementLineYields(lines: seq<string>, i: nat, parseDynamic: bool, init: ProcScan)
    requires 1 <= i <= |lines| && StatementLine(LineKey(lines[i - 1]))
    ensures var ss := ScanLines(ParseLines(lines), |lines|, parseDynamic, init).substeps;
      exists k :: 0 <= k < |ss| && ss[k].lineNum == i && ss[k].operation == ClassifyDml(lines[i - 1]).value
  {
    var parses := ParseLines(lines);
    assert parses[i - 1] == ParseLine(lines, i);
    ParsedLines(lines);
    StatementYields(parses, i, parseDynamic, init);
  }

  /** Every line is well parsed. */
  lemma ParsedLines(lines: seq<string>)
    ensures AllWellParsed(ParseLines(lines))
  {
    var parses := ParseLines(lines);
    forall k | 0 <= k < |parses|
      ensures WellParsed(parses[k], k + 1)
    {
      assert parses[k] == ParseLine(lines, k + 1);
    }
  }

  /** A line with a statement substep puts it in the scan. */
  lemma StatementYields(parses: seq<LineParse>, i: nat, parseDynamic: bool, init: ProcScan)
    requires 1 <= i <= |parses| && AllWellParsed(parses) && parses[i - 1].statement.Some?
    ensures var ss := ScanLines(parses, |parses|, parseDynamic, init).substeps;
      exists k :: 0 <= k < |ss| && ss[k].lineNum == i && ss[k].operation == parses[i - 1].statement.value.operation
  {
    var st := ScanLines(parses, i - 1, parseDynamic, init);
    var added := ScanLineSpec(st, parses[i - 1], i, parseDynamic);
    var k := |st.substeps|;
    var st2 := ScanLines(parses, i, parseDynamic, init);
    assert st2.substeps[k] == added[0];
    ScanLinesGrow(parses, i, |parses|, parseDynamic, init);
    var fin := ScanLines(parses, |parses|, parseDynamic, init);
    assert fin.substeps[k] == st2.substeps[k];
  }

  /** The 1-based line `i` of the parses marks the procedure dynamic. */
  predicate MarksDynamic(parses: seq<LineParse>, i: int) {
    1 <= i <= |parses| && parses[i - 1].dynamicLine
  }

  /** The scan marks the procedure dynamic exactly when it started so, or
      dynamic SQL is parsed and some line that is not blank or a comment
      holds EXECUTE IMMEDIATE. */
  lemma {:induction false} ScanDynamic(parses: seq<LineParse>, n: nat, parseDynamic: bool, init: ProcScan)
    requires n <= |parses|
    ensures ScanLines(parses, n, parseDynamic, init).dynamic <==>
      (init.dynamic || (parseDynamic && exists i :: 1 <= i <= n && MarksDynamic(parses, i)))
  {
    if n > 0 {
      ScanDynamic(parses, n - 1, parseDynamic, init);
      assert MarksDynamic(parses, n) == parses[n - 1].dynamicLine;
    }
  }

  // ---------------------------------------------------------------------
  // The whole procedure

  /** The substeps of the nested calls, in the order `calls` lists them:
      the counter is advanced before each one, so the first call gets one
      more than the number of statement substeps. */
  function CallSubsteps(calls: seq<string>, order: int): (r: seq<Substep>)
    ensures |r| == |calls|
    ensures forall k :: 0 <= k < |r| ==> (r[k].order == order + k + 1 && r[k].operation == ProcedureCall &&
      r[k].nestedProcName == Some(calls[k]) && r[k].tablesRead == {} && r[k].tablesWritten == {})
  {
    seq(|calls|, k requires 0 <= k < |calls| => Substep(order + k + 1, ProcedureCall, {}, {}, None, Some(calls[k]), 0))
  }

  /** Substeps without tables leave the unions as they are. */
  lemma {:induction false} UnionsIgnoreEmpty(ss: seq<Substep>, tail: seq<Substep>)
    requires forall k :: 0 <= k < |tail| ==> tail[k].tablesRead == {} && tail[k].tablesWritten == {}
    ensures UnionRead(ss + tail) == UnionRead(ss) && UnionWritten(ss + tail) == UnionWritten(ss)
    decreases |tail|
  {
    if tail != [] {
      var front := tail[..|tail| - 1];
      var all := ss + tail;
      assert all[..|all| - 1] == ss + front;
      assert all[|all| - 1] == tail[|tail| - 1];
      assert forall k :: 0 <= k < |front| ==> front[k] == tail[k];
      UnionsIgnoreEmpty(ss, front);
    } else {
      assert ss + tail == ss;
    }
  }

  /** The line scan of a procedure's lines from a start with no
      substeps keeps the scan's invariant, and marks the procedure
      dynamic exactly when it started so or dynamic SQL is parsed and a
      line marks it. */
  lemma ScanSource(lines: seq<string>, parseDynamic: bool, init: ProcScan)
    requires init.substeps == [] && init.order == 0
    ensures var st := ScanLines(ParseLines(lines), |lines|, parseDynamic, init);
      ScanInvariant(st, |lines|, init.read, init.written) &&
      (st.dynamic <==> (init.dynamic || (parseDynamic && exists i :: 1 <= i <= |lines| && DynamicAt(lines, i))))
  {
    ParsedLines(lines);
    ScanLinesInvariant(ParseLines(lines), |lines|, parseDynamic, init);
    ScanDynamicLines(lines, parseDynamic, init);
  }

  lemma ScanDynamicLines(lines: seq<string>, parseDynamic: bool, init: ProcScan)
    ensures ScanLines(ParseLines(lines), |lines|, parseDynamic, init).dynamic <==>
      (init.dynamic || (parseDynamic && exists i :: 1 <= i <= |lines| && DynamicAt(lines, i)))
  {
    var parses := ParseLines(lines);
    ScanDynamic(parses, |lines|, parseDynamic, init);
    forall i | 1 <= i <= |lines|
      ensures MarksDynamic(parses, i) <==> DynamicAt(lines, i)
    {
    }
  }

  /** The call substeps appended after the scan's: the statement
      substeps keep their numbers and lines, the calls follow numbered
      from one past the last statement, line numbers never decrease
      across the statements, and the calls add no tables. */
  lemma CallsAppended(st: ProcScan, n: nat, read0: set<string>, written0: set<string>, names: seq<string>)
    requires ScanInvariant(st, n, read0, written0)
    ensures var m := |st.substeps|;
      var all := st.substeps + CallSubsteps(names, st.order);
      |all| == m + |names| &&
      (forall k :: 0 <= k < m ==> (all[k].order == k && all[k].operation != ProcedureCall &&
        1 <= all[k].lineNum <= n)) &&
      (forall k :: m <= k < |all| ==> (all[k].order == k + 1 && all[k].operation == ProcedureCall &&
        all[k].nestedProcName == Some(names[k - m]) && all[k].lineNum == 0)) &&
      (forall k, j :: 0 <= k < j < |all| && all[j].lineNum != 0 ==> all[k].lineNum <= all[j].lineNum) &&
      st.read == read0 + UnionRead(all) && st.written == written0 + UnionWritten(all)
  {
    var nested := CallSubsteps(names, st.order);
    UnionsIgnoreEmpty(st.substeps, nested);
  }

  /** Substeps naming the calls listed in `names`, one each in order,
      name exactly the calls of the set `names` lists. */
  lemma NamedCalls(all: seq<Substep>, m: nat, names: seq<string>, calls: set<string>)
    requires Elems(names) == calls && |all| == m + |names|
    requires forall k :: m <= k < |all| ==> all[k].nestedProcName == Some(names[k - m])
    ensures forall k :: m <= k < |all| ==> all[k].nestedProcName.Some? && all[k].nestedProcName.value in calls
    ensures forall c :: c in calls ==> exists k :: m <= k < |all| && all[k].nestedProcName == Some(c)
  {
    ElemsIn(names);
    forall c | c in calls
      ensures exists k :: m <= k < |all| && all[k].nestedProcName == Some(c)
    {
      var j :| 0 <= j < |names| && names[j] == c;
      assert all[m + j].nestedProcName == Some(names[j]);
    }
  }

  /** The procedure with the scan's substeps followed by the calls'
      numbers every substep and names each call once. */
  lemma Assembled(proc: StoredProcedure, st: ProcScan, names: seq<string>, r: StoredProcedure)
    requires ScanInvariant(st, |proc.sourceLines|, proc.allTablesRead, proc.allTablesWritten)
    requires Elems(names) == r.nestedCalls && |names| == |r.nestedCalls|
    requires r.substeps == st.substeps + CallSubsteps(names, st.order)
    requires r.allTablesRead == st.read && r.allTablesWritten == st.written
    ensures var m := |st.substeps|;
      |r.substeps| == m + |r.nestedCalls| &&
      (forall k :: 0 <= k < m ==> (r.substeps[k].order == k && r.substeps[k].operation != ProcedureCall &&
        1 <= r.substeps[k].lineNum <= |proc.sourceLines|)) &&
      (forall k :: m <= k < |r.substeps| ==> (r.substeps[k].order == k + 1 &&
        r.substeps[k].operation == ProcedureCall && r.substeps[k].nestedProcName.Some? &&
        r.substeps[k].nestedProcName.value in r.nestedCalls)) &&
      (forall c :: c in r.nestedCalls ==> exists k :: m <= k < |r.substeps| && r.substeps[k].nestedProcName == Some(c))
  {
    CallsAppended(st, |proc.sourceLines|, proc.allTablesRead, proc.allTablesWritten, names);
    NamedCalls(r.substeps, |st.substeps|, names, r.nestedCalls);
  }

  /** The same procedure keeps line numbers in order and unions the
      tables. */
  lemma AssembledTables(proc: StoredProcedure, st: ProcScan, names: seq<string>, r: StoredProcedure)
    requires ScanInvariant(st, |proc.sourceLines|, proc.allTablesRead, proc.allTablesWritten)
    requires r.substeps == st.substeps + CallSubsteps(names, st.order)
    requires r.allTablesRead == st.read && r.allTablesWritten == st.written
    ensures forall k, j :: 0 <= k < j < |r.substeps| && r.substeps[j].lineNum != 0 ==>
      r.substeps[k].lineNum <= r.substeps[j].lineNum
    ensures r.allTablesRead == proc.allTablesRead + UnionRead(r.substeps)
    ensures r.allTablesWritten == proc.allTablesWritten + UnionWritten(r.substeps)
  {
    CallsAppended(st, |proc.sourceLines|, proc.allTablesRead, proc.allTablesWritten, names);
  }

  /** `parse_procedure_substeps`: the calls found in the full source, the
      statement and dynamic substeps of the line scan numbered from 0 in
      line order, then one substep per call in the set's iteration order
      (which the model leaves open), numbered from one past the last
      statement; the tables read and written grow by the substeps'
      tables. */
  method ParseProcedureSubsteps(proc: StoredProcedure, parseDynamic: bool) returns (r: StoredProcedure)
    ensures r.owner == proc.owner && r.name == proc.name && r.procType == proc.procType
    ensures r.sourceLines == proc.sourceLines
    ensures r.nestedCalls == FindProcedureCalls(FullSource(proc))
    ensures var m := |ScanLines(ParseLines(proc.sourceLines), |proc.sourceLines|, parseDynamic,
        ProcScan([], 0, proc.allTablesRead, proc.allTablesWritten, proc.hasDynamicSql)).substeps|;
      |r.substeps| == m + |r.nestedCalls| &&
      (forall k :: 0 <= k < m ==> (r.substeps[k].order == k && r.substeps[k].operation != ProcedureCall &&
        1 <= r.substeps[k].lineNum <= |proc.sourceLines|)) &&
      (forall k :: m <= k < |r.substeps| ==> (r.substeps[k].order == k + 1 &&
        r.substeps[k].operation == ProcedureCall && r.substeps[k].nestedProcName.Some? &&
        r.substeps[k].nestedProcName.value in r.nestedCalls)) &&
      (forall c :: c in r.nestedCalls ==> exists k :: m <= k < |r.substeps| && r.substeps[k].nestedProcName == Some(c))
    ensures forall k, j :: 0 <= k < j < |r.substeps| && r.substeps[j].lineNum != 0 ==>
      r.substeps[k].lineNum <= r.substeps[j].lineNum
    ensures r.allTablesRead == proc.allTablesRead + UnionRead(r.substeps)
    ensures r.allTablesWritten == proc.allTablesWritten + UnionWritten(r.substeps)
    ensures r.hasDynamicSql <==> (proc.hasDynamicSql ||
      (parseDynamic && exists i :: 1 <= i <= |proc.sourceLines| && DynamicAt(proc.sourceLines, i)))
    ensures var ss := ScanLines(ParseLines(proc.sourceLines), |proc.sourceLines|, parseDynamic,
        ProcScan([], 0, proc.allTablesRead, proc.allTablesWritten, proc.hasDynamicSql)).substeps;
      ss <= r.substeps
  {
    var calls := FindProcedureCalls(FullSource(proc));
    var init := ProcScan([], 0, proc.allTablesRead, proc.allTablesWritten, proc.hasDynamicSql);
    var st := ScanLines(ParseLines(proc.sourceLines), |proc.sourceLines|, parseDynamic, init);
    ScanSource(proc.sourceLines, parseDynamic, init);
    var names := SetToSeq(calls);
    ElemsCard(names);
    r := proc.(substeps := st.substeps + CallSubsteps(names, st.order), nestedCalls := calls,
      hasDynamicSql := st.dynamic, allTablesRead := st.read, allTablesWritten := st.written);
    Assembled(proc, st, names, r);
    AssembledTables(proc, st, names, r);
  }

  // ---------------------------------------------------------------------
  // Table names

  /** `normalize_table_name`: a bare name gains the default database and
      schema, a schema-qualified name gains the default database, and a
      name of three or more parts is kept; missing or empty defaults and
      empty parts are dropped from the join. */
  function NormalizeTableName(table: string, defaultSchema: Option<string>, defaultDb: Option<string>): string {
    var parts := Split(table, '.');
    if |parts| == 1 then Join(Present([defaultDb, defaultSchema, Some(parts[0])]), ".")
    else if |parts| == 2 then Join(Present([defaultDb, Some(parts[0]), Some(parts[1])]), ".")
    else table
  }

  /** With non-empty, dot-free defaults, a bare or schema-qualified name
      of non-empty parts becomes the three parts database, schema, name;
      normalising that again changes nothing. */
  lemma NormalizeQualifies(schema: string, name: string, db: string, qualified: bool)
    requires schema != "" && name != "" && db != ""
    requires '.' !in schema && '.' !in name && '.' !in db
    ensures var table := if qualified then schema + "." + name else name;
      var r := NormalizeTableName(table, Some(if qualified then "other" else schema), Some(db));
      Split(r, '.') == [db, schema, name] && NormalizeTableName(r, Some(schema), Some(db)) == r
  {
    if qualified {
      NormalizeSchemaQualified(schema, name, Some("other"), db);
    } else {
      NormalizeBareFull(name, schema, db);
    }
    ThreePartsKept(db, schema, name, Some(schema), Some(db));
  }

  /** A bare name with both defaults gains both. */
  lemma NormalizeBareFull(name: string, schema: string, db: string)
    requires name != "" && schema != "" && db != "" && '.' !in name
    ensures NormalizeTableName(name, Some(schema), Some(db)) == db + "." + schema + "." + name
  {
    JoinOf1(name);
    SplitJoin([name], '.');
    assert Split(name, '.') == [name];
    Present3(Some(db), Some(schema), Some(name));
    assert Present([Some(db), Some(schema), Some(name)]) == [db, schema, name];
    JoinOf3(db, schema, name);
  }

  /** A name of three dot-free parts splits into them and is kept. */
  lemma ThreePartsKept(a: string, b: string, c: string, defaultSchema: Option<string>, defaultDb: Option<string>)
    requires '.' !in a && '.' !in b && '.' !in c
    ensures Split(a + "." + b + "." + c, '.') == [a, b, c]
    ensures NormalizeTableName(a + "." + b + "." + c, defaultSchema, defaultDb) == a + "." + b + "." + c
  {
    JoinOf3(a, b, c);
    SplitJoin([a, b, c], '.');
  }

  lemma JoinOf1(a: string)
    ensures Join([a], ".") == a
  {
  }

  lemma JoinOf2(a: string, b: string)
    ensures Join([a, b], ".") == a + "." + b
  {
    assert [a, b][1..] == [b];
  }

  lemma JoinOf3(a: string, b: string, c: string)
    ensures Join([a, b, c], ".") == a + "." + b + "." + c
  {
    assert [a, b, c][1..] == [b, c];
    JoinOf2(b, c);
  }

  /** A name of three or more parts is never qualified further, whatever
      the defaults. */
  lemma NormalizeKeepsQualified(table: string, defaultSchema: Option<string>, defaultDb: Option<string>)
    requires |Split(table, '.')| >= 3
    ensures NormalizeTableName(table, defaultSchema, defaultDb) == table
  {
  }

  /** With a default database but no default schema, a bare name becomes
      a two-part name, which normalising again reads as schema-qualified
      and qualifies with the database a second time. */
  lemma NormalizeDatabaseTwice()
    ensures NormalizeTableName("T", None, Some("D")) == "D.T"
    ensures NormalizeTableName("D.T", None, Some("D")) == "D.D.T"
  {
    NormalizeBare("T", "D");
    NormalizeSchemaQualified("D", "T", None, "D");
  }

  /** A bare name with only a default database. */
  lemma NormalizeBare(name: string, db: string)
    requires name != "" && db != "" && '.' !in name
    ensures NormalizeTableName(name, None, Some(db)) == db + "." + name
  {
    JoinOf1(name);
    SplitJoin([name], '.');
    Present3(Some(db), None, Some(name));
    JoinOf2(db, name);
  }

  /** A schema-qualified name with a default database, whatever the
      default schema. */
  lemma NormalizeSchemaQualified(schema: string, name: string, defaultSchema: Option<string>, db: string)
    requires schema != "" && name != "" && db != "" && '.' !in schema && '.' !in name
    ensures NormalizeTableName(schema + "." + name, defaultSchema, Some(db)) == db + "." + schema + "." + name
  {
    JoinOf2(schema, name);
    SplitJoin([schema, name], '.');
    assert Split(schema + "." + name, '.') == [schema, name];
    Present3(Some(db), Some(schema), Some(name));
    assert Present([Some(db), Some(schema), Some(name)]) == [db, schema, name];
    JoinOf3(db, schema, name);
  }
}
