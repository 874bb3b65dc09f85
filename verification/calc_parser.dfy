/** The Essbase calc-script parser: variables, the FIX/ENDFIX scope stack,
    first-match classification of each statement line, and the member
    names a line mentions.  Every regular expression of the parser is a
    hand-written scanner `...At(s, p)` giving the match that Python's
    backtracking engine finds when it tries position `p`; `Search` and
    `FindAll` are `re.search` and `re.finditer` over such a scanner. */
module CalcParser {
  import opened Basics
  import opened Text
  import opened OrderedMap
  import opened EssbaseModels
  import opened Scan

  predicate IsSemicolon(c: char) { c == ';' }
  predicate IsCloseParen(c: char) { c == ')' }
  predicate IsDoubleQuote(c: char) { c == '"' }
  predicate IsSingleQuote(c: char) { c == '\'' }
  predicate IsCloseBracket(c: char) { c == ']' }

  /** The letter `T` under IGNORECASE, which the DATACOPY source class excludes. */
  predicate IsLetterT(c: char) { c == 'T' || c == 't' }

  /** `\(([^)]+)\)` at `a`: the non-empty text up to the first `)`. */
  function ParenGroupAt(s: string, a: nat): (r: Option<Hit<string>>)
    ensures r.Some? ==> a < r.value.end <= |s| && ')' !in r.value.value
  {
    if a < |s| && s[a] == '(' then
      var close := FindFrom(s, a + 1, IsCloseParen);
      if a + 1 < close < |s| then Some(Hit(s[a + 1..close], close + 1)) else None
    else None
  }

  /** `\s*([^;]+);` at `a`, the capture stripped as every caller strips it. */
  function ValueAt(s: string, a: nat): (r: Option<Hit<string>>)
    ensures r.Some? ==> a < r.value.end <= |s|
  {
    if a <= |s| then
      var semi := FindFrom(s, a, IsSemicolon);
      if a < semi < |s| then Some(Hit(Strip(s[a..semi]), semi + 1)) else None
    else None
  }

  /** `\s+([^;]+);` at `a`: as `ValueAt`, but whitespace must come first and
      the capture needs a character after it. */
  function SpacedValueAt(s: string, a: nat): (r: Option<Hit<string>>)
    ensures r.Some? ==> a < r.value.end <= |s|
  {
    if a < |s| && IsSpace(s[a]) then
      var semi := FindFrom(s, a, IsSemicolon);
      if a + 1 < semi < |s| then Some(Hit(Strip(s[a..semi]), semi + 1)) else None
    else None
  }

  /** `SET\s+(\w+)\s*=\s*([^;]+);`, case-insensitive. */
  function SetVarAt(s: string, p: nat): (r: Option<Hit<CalcVariable>>)
    ensures r.Some? ==> p < r.value.end <= |s| && r.value.value.scope == Global && r.value.value.value.Some?
  {
    if !KeywordAt(s, p, "SET") then None
    else
      var b := SpaceEnd(s, p + 3);
      var e := WordEnd(s, b);
      var c := SpaceEnd(s, e);
      if b == p + 3 || e == b || c == |s| || s[c] != '=' then None
      else match ValueAt(s, c + 1)
        case None => None
        case Some(h) => Some(Hit(CalcVariable(s[b..e], Some(h.value), Global), h.end))
  }

  /** `VAR\s+(\w+)\s*(?:=\s*([^;]+))?;`, case-insensitive. */
  function VarDefAt(s: string, p: nat): (r: Option<Hit<CalcVariable>>)
    ensures r.Some? ==> p < r.value.end <= |s| && r.value.value.scope == Local
  {
    if !KeywordAt(s, p, "VAR") then None
    else
      var b := SpaceEnd(s, p + 3);
      var e := WordEnd(s, b);
      var c := SpaceEnd(s, e);
      if b == p + 3 || e == b || c == |s| then None
      else if s[c] == ';' then Some(Hit(CalcVariable(s[b..e], None, Local), c + 1))
      else if s[c] == '=' then
        match ValueAt(s, c + 1)
        case None => None
        case Some(h) => Some(Hit(CalcVariable(s[b..e], Some(h.value), Local), h.end))
      else None
  }

  /** `FIX\s*\(([^)]+)\)`, case-insensitive: the member list of a FIX. */
  function FixStartAt(s: string, p: nat): (r: Option<Hit<string>>)
    ensures r.Some? ==> p < r.value.end <= |s| && ')' !in r.value.value
  {
    if !KeywordAt(s, p, "FIX") then None else ParenGroupAt(s, SpaceEnd(s, p + 3))
  }

  /** `ENDFIX\s*;?` anchored at the start (`re.match`). */
  predicate IsEndFix(t: string) {
    KeywordAt(t, 0, "ENDFIX")
  }

  /** `AGG\s*\(([^)]+)\)\s*;`, case-insensitive. */
  function AggAt(s: string, p: nat): (r: Option<Hit<string>>)
    ensures r.Some? ==> p < r.value.end <= |s|
  {
    if !KeywordAt(s, p, "AGG") then None
    else match ParenGroupAt(s, SpaceEnd(s, p + 3))
      case None => None
      case Some(h) =>
        var e := SpaceEnd(s, h.end);
        if e < |s| && s[e] == ';' then Some(Hit(h.value, e + 1)) else None
  }

  /** `CALC\s+DIM\s*\(([^)]+)\)\s*;`, case-insensitive. */
  function CalcDimAt(s: string, p: nat): (r: Option<Hit<string>>)
    ensures r.Some? ==> p < r.value.end <= |s|
  {
    if !KeywordAt(s, p, "CALC") then None
    else
      var b := SpaceEnd(s, p + 4);
      if b == p + 4 || !KeywordAt(s, b, "DIM") then None
      else match ParenGroupAt(s, SpaceEnd(s, b + 3))
        case None => None
        case Some(h) =>
          var e := SpaceEnd(s, h.end);
          if e < |s| && s[e] == ';' then Some(Hit(h.value, e + 1)) else None
  }

  /** `CALC\s+ALL\s*;`, case-insensitive. */
  function CalcAllAt(s: string, p: nat): (r: Option<Hit<()>>)
    ensures r.Some? ==> p < r.value.end <= |s|
  {
    if !KeywordAt(s, p, "CALC") then None
    else
      var b := SpaceEnd(s, p + 4);
      if b == p + 4 || !KeywordAt(s, b, "ALL") then None
      else
        var e := SpaceEnd(s, b + 3);
        if e < |s| && s[e] == ';' then Some(Hit((), e + 1)) else None
  }

  /** `DATACOPY\s+([^T]+)\s+TO\s+([^;]+);` under IGNORECASE, giving the
      stripped source and target regions.  The source cannot contain a `t`
      or `T`, so the `T` of `TO` is the first one after the keyword and must
      follow whitespace; the engine's backtracking leaves the source as the
      text between the keyword and that whitespace. */
  function DataCopyAt(s: string, p: nat): (r: Option<Hit<(string, string)>>)
    ensures r.Some? ==> p < r.value.end <= |s|
  {
    if !KeywordAt(s, p, "DATACOPY") || p + 8 >= |s| || !IsSpace(s[p + 8]) then None
    else
      var a := p + 8;
      var y := FindFrom(s, a, IsLetterT);
      if y < a + 3 || y + 1 >= |s| || !IsSpace(s[y - 1]) || !(s[y + 1] == 'O' || s[y + 1] == 'o') then None
      else match SpacedValueAt(s, y + 2)
        case None => None
        case Some(h) => Some(Hit((Strip(s[a..y - 1]), h.value), h.end))
  }

  /** `CLEARDATA\s+([^;]+);`, case-insensitive. */
  function ClearDataAt(s: string, p: nat): (r: Option<Hit<string>>)
    ensures r.Some? ==> p < r.value.end <= |s|
  {
    if !KeywordAt(s, p, "CLEARDATA") then None else SpacedValueAt(s, p + 9)
  }

  /** Characters that end the member name of a formula line. */
  predicate IsFormulaStop(c: char) { c == '"' || c == '=' || c == '\n' }

  /** `^[\s]*"?([^"=\n]+)"?\s*=\s*([^;]+);` on a stripped line without line
      breaks, where `^` can only match at the start: the member (stripped
      of whitespace, then of quotes) and the stripped formula. */
  function FormulaMatch(t: string): (r: Option<(string, string)>)
    requires '\n' !in t && (t == [] || !IsSpace(t[0]))
  {
    var g := if t != [] && t[0] == '"' then 1 else 0;
    var r := FindFrom(t, g, IsFormulaStop);
    if r == g || r == |t| then None
    else
      var eq := if t[r] == '=' then r else SpaceEnd(t, r + 1);
      if eq == |t| || t[eq] != '=' then None
      else match ValueAt(t, eq + 1)
        case None => None
        case Some(h) => Some((StripQuotes(Strip(t[g..r])), h.value))
  }

  /** `"…"`, `'…'` or `[…]` starting at `p`, with non-empty contents. */
  function MemberRefAt(s: string, p: nat): (r: Option<Hit<string>>)
    ensures r.Some? ==> p < r.value.end <= |s| && r.value.value != []
  {
    if p >= |s| then None
    else
      var close :=
        if s[p] == '"' then FindFrom(s, p + 1, IsDoubleQuote)
        else if s[p] == '\'' then FindFrom(s, p + 1, IsSingleQuote)
        else if s[p] == '[' then FindFrom(s, p + 1, IsCloseBracket)
        else p;
      if p + 1 < close < |s| then Some(Hit(s[p + 1..close], close + 1)) else None
  }

  /** The class `[^"'\s,;]` of member names after `->`. */
  predicate IsMemberChar(c: char) {
    !(c == '"' || c == '\'' || IsSpace(c) || c == ',' || c == ';')
  }

  /** `(\w+)->(["']?)([^"'\s,;]+)\2` at `p`: the dimension and the member;
      a member that opens with a quote must close with the same one. */
  function DimMemberAt(s: string, p: nat): (r: Option<Hit<(string, string)>>)
    ensures r.Some? ==> p < r.value.end <= |s| && r.value.value.0 != [] && r.value.value.1 != []
  {
    if p >= |s| || !IsWordChar(s[p]) then None
    else
      var we := WordEnd(s, p);
      if !LiteralAt(s, we, "->") then None
      else
        var q := we + 2;
        if q < |s| && IsQuote(s[q]) then
          var e := RunEnd(s, q + 1, IsMemberChar);
          if q + 1 < e < |s| && s[e] == s[q] then Some(Hit((s[p..we], s[q + 1..e]), e + 1)) else None
        else
          var e := RunEnd(s, q, IsMemberChar);
          if q < e then Some(Hit((s[p..we], s[q..e]), e)) else None
  }

  /** `->\s*\(([^)]+)\)` at `p`: the parenthesised cross-dimensional list. */
  function CrossDimAt(s: string, p: nat): (r: Option<Hit<string>>)
    ensures r.Some? ==> p < r.value.end <= |s|
  {
    if !LiteralAt(s, p, "->") then None else ParenGroupAt(s, SpaceEnd(s, p + 2))
  }

  // ----- variables -----

  /** Every SET declaration of the script, then every VAR declaration. */
  function ExtractVariables(content: string): seq<CalcVariable> {
    FindAll(content, 0, SetVarAt) + FindAll(content, 0, VarDefAt)
  }

  /** `v` is the variable a SET (global) or VAR (local) declaration at `k`
      declares. */
  predicate DeclaredAt(content: string, k: nat, v: CalcVariable) {
    if v.scope == Global then SetVarAt(content, k).Some? && SetVarAt(content, k).value.value == v
    else VarDefAt(content, k).Some? && VarDefAt(content, k).value.value == v
  }

  /** Each SET declaration found declares a global with a value there. */
  lemma SetsDeclared(content: string)
    ensures forall v :: v in FindAll(content, 0, SetVarAt) ==>
      v.scope == Global && v.value.Some? && exists k :: 0 <= k <= |content| && DeclaredAt(content, k, v)
  {
    forall v | v in FindAll(content, 0, SetVarAt)
      ensures v.scope == Global && v.value.Some? && exists k :: 0 <= k <= |content| && DeclaredAt(content, k, v)
    {
      FindAllFrom(content, 0, SetVarAt, v);
      var k, h :| 0 <= k <= |content| && SetVarAt(content, k) == Some(h) && h.value == v;
      assert DeclaredAt(content, k, v);
    }
  }

  /** Each VAR declaration found declares a local there. */
  lemma VarsDeclared(content: string)
    ensures forall v :: v in FindAll(content, 0, VarDefAt) ==>
      v.scope == Local && exists k :: 0 <= k <= |content| && DeclaredAt(content, k, v)
  {
    forall v | v in FindAll(content, 0, VarDefAt)
      ensures v.scope == Local && exists k :: 0 <= k <= |content| && DeclaredAt(content, k, v)
    {
      FindAllFrom(content, 0, VarDefAt, v);
      var k, h :| 0 <= k <= |content| && VarDefAt(content, k) == Some(h) && h.value == v;
      assert DeclaredAt(content, k, v);
    }
  }

  /** Globals followed by locals: no global comes after a local. */
  lemma GlobalsFirst(sets: seq<CalcVariable>, vars: seq<CalcVariable>)
    requires forall k :: 0 <= k < |sets| ==> sets[k].scope == Global
    requires forall k :: 0 <= k < |vars| ==> vars[k].scope == Local
    ensures forall i, j :: 0 <= i < j < |sets + vars| && (sets + vars)[j].scope == Global ==>
      (sets + vars)[i].scope == Global
  {
  }

  /** Every variable found is declared somewhere in the script with its
      scope's keyword, a global always carries a value, and every global
      comes before every local. */
  lemma ExtractVariablesSpec(content: string)
    ensures forall v :: v in ExtractVariables(content) ==>
      (v.scope == Global ==> v.value.Some?) && exists k :: 0 <= k <= |content| && DeclaredAt(content, k, v)
    ensures forall i, j :: 0 <= i < j < |ExtractVariables(content)| && ExtractVariables(content)[j].scope == Global ==>
      ExtractVariables(content)[i].scope == Global
  {
    var sets := FindAll(content, 0, SetVarAt);
    var vars := FindAll(content, 0, VarDefAt);
    var r := ExtractVariables(content);
    assert r == sets + vars;
    SetsDeclared(content);
    VarsDeclared(content);
    assert forall k :: 0 <= k < |sets| ==> sets[k] in sets;
    assert forall k :: 0 <= k < |vars| ==> vars[k] in vars;
    GlobalsFirst(sets, vars);
  }

  /** Without an `=` no SET declaration matches. */
  lemma NoEqualsNoSet(content: string)
    requires '=' !in content
    ensures FindAll(content, 0, SetVarAt) == []
  {
    forall k | 0 <= k <= |content| ensures SetVarAt(content, k).None? {
      if KeywordAt(content, k, "SET") {
        var c := SpaceEnd(content, WordEnd(content, SpaceEnd(content, k + 3)));
        assert c < |content| ==> content[c] in content;
      }
    }
    FindAllNone(content, 0, SetVarAt);
  }

  /** Without an `=` every VAR declaration is bare. */
  lemma NoEqualsBareVars(content: string)
    requires '=' !in content
    ensures forall v :: v in FindAll(content, 0, VarDefAt) ==> v.scope == Local && v.value.None?
  {
    forall v | v in FindAll(content, 0, VarDefAt) ensures v.scope == Local && v.value.None? {
      FindAllFrom(content, 0, VarDefAt, v);
      var k, h :| 0 <= k <= |content| && VarDefAt(content, k) == Some(h) && h.value == v;
      VarDefBare(content, k);
    }
  }

  /** Without an `=` a VAR declaration found anywhere has no value. */
  lemma VarDefBare(content: string, k: nat)
    requires '=' !in content && VarDefAt(content, k).Some?
    ensures VarDefAt(content, k).value.value.value.None?
  {
    var c := SpaceEnd(content, WordEnd(content, SpaceEnd(content, k + 3)));
    assert content[c] in content;
  }

  /** A SET with a value needs an `=`: a script without one (such as
      `SET UPDATECALC OFF;`) declares no global variable, and its VARs carry
      no value. */
  lemma NoEqualsNoValues(content: string)
    requires '=' !in content
    ensures forall v :: v in ExtractVariables(content) ==> v.scope == Local && v.value.None?
  {
    NoEqualsNoSet(content);
    NoEqualsBareVars(content);
  }

  // ----- FIX member lists -----

  /** The members paired with a dimension in a list of (dimension, member). */
  function Members(pairs: seq<(string, string)>): set<string> {
    set i | 0 <= i < |pairs| :: pairs[i].1
  }

  /** `Dim->Member` pairs inside each cross-dimensional group, in order. */
  function CrossPairs(groups: seq<string>): seq<(string, string)>
    decreases |groups|
  {
    if groups == [] then []
    else CrossPairs(groups[..|groups| - 1]) + FindAll(groups[|groups| - 1], 0, DimMemberAt)
  }

  /** The members a FIX names, by dimension.  `Dim->Member` pairs are filed
      under their dimension (repeats kept); quoted or bracketed names not
      already filed under any dimension go under `_unresolved_`, which is
      present only when there is such a name. */
  function FixMembers(content: string): FixContext {
    var pairs := FindAll(content, 0, DimMemberAt) + CrossPairs(FindAll(content, 0, CrossDimAt));
    var listed := Members(pairs);
    var bare := Filter(FindAll(content, 0, MemberRefAt), m => m !in listed);
    if bare == [] then Group(pairs) else Put(Group(pairs), "_unresolved_", bare)
  }

  /** The text a FIX captures stops at the first `)`, so the
      cross-dimensional form `->(…)` can never be found inside it. */
  lemma CrossDimNeverInFix(content: string)
    requires ')' !in content
    ensures FindAll(content, 0, CrossDimAt) == []
  {
    forall k | 0 <= k <= |content| ensures CrossDimAt(content, k).None? {
      if LiteralAt(content, k, "->") {
        var a := SpaceEnd(content, k + 2);
        if a < |content| && content[a] == '(' {
          var close := FindFrom(content, a + 1, IsCloseParen);
          assert close == |content|;
        }
      }
    }
    FindAllNone(content, 0, CrossDimAt);
  }

  /** What a FIX's member list files where: for the text a FIX captures,
      every dimension lists exactly its `Dim->Member` members in order, and
      `_unresolved_` (when no dimension has that name) is present iff some
      quoted name is filed under no dimension, and then lists exactly
      those names in order. */
  lemma FixMembersSpec(content: string, dim: string)
    requires ')' !in content
    ensures var pairs := FindAll(content, 0, DimMemberAt);
      var bare := Filter(FindAll(content, 0, MemberRefAt), m => m !in Members(pairs));
      Valid(FixMembers(content)) &&
      (dim != "_unresolved_" ==>
        Get(FixMembers(content), dim) == if dim in Keys(pairs) then Some(ValuesFor(pairs, dim)) else None) &&
      ("_unresolved_" !in Keys(pairs) ==>
        Get(FixMembers(content), "_unresolved_") == if bare == [] then None else Some(bare))
  {
    CrossDimNeverInFix(content);
    var pairs := FindAll(content, 0, DimMemberAt);
    assert CrossPairs([]) == [];
    assert pairs + [] == pairs;
    var bare := Filter(FindAll(content, 0, MemberRefAt), m => m !in Members(pairs));
    GroupKeys(pairs);
    GroupGet(pairs, dim);
    GroupGet(pairs, "_unresolved_");
    if bare != [] {
      PutValid(Group(pairs), "_unresolved_", bare);
      PutGet(Group(pairs), "_unresolved_", bare, dim);
      PutGet(Group(pairs), "_unresolved_", bare, "_unresolved_");
    }
  }

  /** The scopes of nested FIXes merged: each dimension once, in first-seen
      order, with its members once each, in first-seen order. */
  function MergeContexts(stack: seq<FixContext>): FixContext {
    MergeFrom([], Flatten(stack))
  }

  /** The merged scope names every dimension of the stack once, in
      first-seen order, and under each the members the stack's FIXes list
      for it, once each, in first-seen order. */
  lemma MergeContextsSpec(stack: seq<FixContext>, dim: string)
    ensures Valid(MergeContexts(stack))
    ensures Keys(MergeContexts(stack)) == Dedup(Keys(Flatten(stack)))
    ensures Get(MergeContexts(stack), dim) ==
      if dim in Keys(Flatten(stack)) then Some(Dedup(Flatten(ValuesFor(Flatten(stack), dim)))) else None
  {
    MergeFromKeys([], Flatten(stack));
    MergeFromGet([], Flatten(stack), dim);
  }

  /** A member of the merged scope is listed without repeats and appears
      under that dimension in one of the stacked FIXes. */
  lemma MergedMembers(stack: seq<FixContext>, dim: string, x: string)
    requires Get(MergeContexts(stack), dim).Some?
    ensures Distinct(Get(MergeContexts(stack), dim).value)
    ensures x in Get(MergeContexts(stack), dim).value <==> exists ms :: (dim, ms) in Flatten(stack) && x in ms
  {
    MergeContextsSpec(stack, dim);
    var vs := ValuesFor(Flatten(stack), dim);
    DedupSpec(Flatten(vs));
    FlattenIn(vs, x);
    forall ms ensures ms in vs <==> (dim, ms) in Flatten(stack) {
      ValuesForIn(Flatten(stack), dim, ms);
    }
  }

  lemma {:induction false} FlattenIn<T>(ss: seq<seq<T>>, x: T)
    ensures x in Flatten(ss) <==> exists s :: s in ss && x in s
    decreases |ss|
  {
    if ss != [] {
      var n := |ss| - 1;
      FlattenIn(ss[..n], x);
      assert ss == ss[..n] + [ss[n]];
      if x in ss[n] {
        assert ss[n] in ss;
      }
    }
  }

  // ----- statement classification -----

  /** `[d.strip().strip('"\'') for d in args.split(',')]`: one target per
      comma-separated piece, none holding a comma or opening or closing
      with a quote. */
  function Targets(args: string): (r: seq<string>)
    ensures |r| == |Split(args, ',')|
    ensures forall i :: 0 <= i < |r| ==>
      ',' !in r[i] && (r[i] == [] || (!IsQuote(r[i][0]) && !IsQuote(r[i][|r[i]| - 1])))
  {
    var parts := Split(args, ',');
    PiecesKeepOut(parts, ',');
    seq(|parts|, i requires 0 <= i < |parts| => StripQuotes(Strip(parts[i])))
  }

  lemma PiecesKeepOut(parts: seq<string>, c: char)
    requires forall k :: 0 <= k < |parts| ==> c !in parts[k]
    ensures forall k :: 0 <= k < |parts| ==> c !in StripQuotes(Strip(parts[k]))
  {
    forall k | 0 <= k < |parts| ensures c !in StripQuotes(Strip(parts[k])) {
      TrimByKeepsOut(parts[k], c, IsSpace);
      TrimByKeepsOut(Strip(parts[k]), c, IsQuote);
    }
  }

  /** A target name is its own piece: neither blank nor quoted at its
      ends, and free of commas. */
  predicate PlainTarget(d: string) {
    d != [] && ',' !in d && !IsSpace(d[0]) && !IsSpace(d[|d| - 1]) && !IsQuote(d[0]) && !IsQuote(d[|d| - 1])
  }

  /** Listing plain names with commas gives them back as the targets. */
  lemma TargetsRoundTrip(dims: seq<string>)
    requires |dims| >= 1 && forall k :: 0 <= k < |dims| ==> PlainTarget(dims[k])
    ensures Targets(Join(dims, ",")) == dims
  {
    SplitJoin(dims, ',');
    var r := Targets(Join(dims, ","));
    forall k | 0 <= k < |dims| ensures r[k] == dims[k] {
      PlainTargetKept(dims[k]);
    }
  }

  lemma PlainTargetKept(d: string)
    requires PlainTarget(d)
    ensures StripQuotes(Strip(d)) == d
  {
    StripUnspaced(d);
    TrimByUnclassed(d, IsQuote);
  }

  function Transform(op: CalcOperation, targets: seq<string>, t: string, ctx: Option<FixContext>): CalcTransform {
    CalcTransform(op, targets, [], None, ctx, None, Strip(t), None, None)
  }

  /** The statement on a stripped line, if any: the first of AGG, CALC DIM,
      CALC ALL, DATACOPY, CLEARDATA and member formula that matches.  The
      transform is built without a line number or scope; `ParseOperation`
      adds them. */
  function Recognize(t: string): (r: Option<CalcTransform>)
    requires '\n' !in t && (t == [] || !IsSpace(t[0]))
    ensures r.Some? ==> r.value.rawStatement == Strip(t) && r.value.fixContext.None? && r.value.lineNumber.None?
    ensures r.None? <==>
      Search(t, AggAt).None? && Search(t, CalcDimAt).None? && Search(t, CalcAllAt).None? &&
      Search(t, DataCopyAt).None? && Search(t, ClearDataAt).None? && FormulaMatch(t).None?
    // only a formula carries an expression, and only a copy carries regions
    ensures r.Some? ==> (r.value.formula.Some? <==> r.value.operation == FormulaOp)
    ensures r.Some? ==> (r.value.sourceRegion.Some? <==> r.value.operation == DataCopy)
    ensures r.Some? ==> (r.value.targetRegion.Some? <==> r.value.operation == DataCopy)
    ensures r.Some? && r.value.operation != FormulaOp ==> r.value.sources == []
    // the first pattern that matches decides the operation and its targets
    ensures Search(t, AggAt).Some? ==>
      r.Some? && r.value.operation == Aggregation && r.value.targets == Targets(Search(t, AggAt).value.value)
    ensures Search(t, AggAt).None? && Search(t, CalcDimAt).Some? ==>
      r.Some? && r.value.operation == CalcDim && r.value.targets == Targets(Search(t, CalcDimAt).value.value)
    ensures Search(t, AggAt).None? && Search(t, CalcDimAt).None? && Search(t, CalcAllAt).Some? ==>
      r.Some? && r.value.operation == Aggregation && r.value.targets == ["ALL"]
    ensures (Search(t, AggAt).None? && Search(t, CalcDimAt).None? && Search(t, CalcAllAt).None? &&
             Search(t, DataCopyAt).Some?) ==>
      r.Some? && r.value.operation == DataCopy && r.value.targets == [] &&
      r.value.sourceRegion == Some(Search(t, DataCopyAt).value.value.0) &&
      r.value.targetRegion == Some(Search(t, DataCopyAt).value.value.1)
    ensures (Search(t, AggAt).None? && Search(t, CalcDimAt).None? && Search(t, CalcAllAt).None? &&
             Search(t, DataCopyAt).None? && Search(t, ClearDataAt).Some?) ==>
      r.Some? && r.value.operation == Clear && r.value.targets == [Search(t, ClearDataAt).value.value]
    ensures (Search(t, AggAt).None? && Search(t, CalcDimAt).None? && Search(t, CalcAllAt).None? &&
             Search(t, DataCopyAt).None? && Search(t, ClearDataAt).None? && FormulaMatch(t).Some?) ==>
      r.Some? && r.value.operation == FormulaOp && r.value.targets == [FormulaMatch(t).value.0] &&
      r.value.sources == FormulaMembers(FormulaMatch(t).value.1) && r.value.formula == Some(FormulaMatch(t).value.1)
  {
    match Search(t, AggAt)
    case Some(h) => Some(Transform(Aggregation, Targets(h.value), t, None))
    case None =>
      match Search(t, CalcDimAt)
      case Some(h) => Some(Transform(CalcDim, Targets(h.value), t, None))
      case None =>
        if Search(t, CalcAllAt).Some? then Some(Transform(Aggregation, ["ALL"], t, None))
        else match Search(t, DataCopyAt)
          case Some(h) =>
            Some(CalcTransform(DataCopy, [], [], None, None, None, Strip(t), Some(h.value.0), Some(h.value.1)))
          case None =>
            match Search(t, ClearDataAt)
            case Some(h) => Some(Transform(Clear, [h.value], t, None))
            case None =>
              match FormulaMatch(t)
              case Some(mf) =>
                Some(CalcTransform(FormulaOp, [mf.0], FormulaMembers(mf.1), Some(mf.1), None, None, Strip(t), None, None))
              case None => None
  }

  /** `_parse_operation(line, line_num, fix_context)`. */
  function ParseOperation(t: string, num: nat, ctx: Option<FixContext>): (r: Option<CalcTransform>)
    requires '\n' !in t && (t == [] || !IsSpace(t[0]))
    ensures r.Some? ==> r.value.lineNumber == Some(num) && r.value.rawStatement == Strip(t) && r.value.fixContext == ctx
    ensures r.None? <==> Recognize(t).None?
    ensures r.Some? ==> r.value == Recognize(t).value.(fixContext := ctx, lineNumber := Some(num))
  {
    match Recognize(t)
    case None => None
    case Some(x) => Some(x.(fixContext := ctx, lineNumber := Some(num)))
  }

  /** A formula's source members: quoted or bracketed names first, then
      `Dim->Member` strings, each once, in first-seen order. */
  function FormulaMembers(formula: string): seq<string> {
    Dedup(FindAll(formula, 0, MemberRefAt) + DimMemberStrings(FindAll(formula, 0, DimMemberAt)))
  }

  function DimMemberStrings(pairs: seq<(string, string)>): (r: seq<string>)
    ensures |r| == |pairs|
  {
    seq(|pairs|, i requires 0 <= i < |pairs| => pairs[i].0 + "->" + pairs[i].1)
  }

  lemma FormulaMembersSpec(formula: string)
    ensures var quoted := FindAll(formula, 0, MemberRefAt);
      var arrows := DimMemberStrings(FindAll(formula, 0, DimMemberAt));
      Distinct(FormulaMembers(formula)) &&
      (forall x :: x in FormulaMembers(formula) <==> x in quoted || x in arrows) &&
      FirstSeenOrder(FormulaMembers(formula), quoted + arrows)
  {
    DedupSpec(FindAll(formula, 0, MemberRefAt) + DimMemberStrings(FindAll(formula, 0, DimMemberAt)));
  }

  /** A DATACOPY source region never contains the letter T in either case,
      so a statement such as `DATACOPY Budget TO Forecast;` is no copy. */
  lemma DataCopySourceHasNoT(s: string, p: nat)
    requires DataCopyAt(s, p).Some?
    ensures forall c :: c in DataCopyAt(s, p).value.value.0 ==> !IsLetterT(c)
  {
    var a := p + 8;
    var y := FindFrom(s, a, IsLetterT);
    StripSpec(s[a..y - 1]);
  }

  lemma BudgetIsNoCopy()
    ensures DataCopyAt("DATACOPY Budget TO Forecast;", 0).None?
  {
    var s := "DATACOPY Budget TO Forecast;";
    assert KeywordAt(s, 0, "DATACOPY");
    assert IsLetterT(s[14]) && !IsSpace(s[13]);
    assert forall k :: 8 <= k < 14 ==> !IsLetterT(s[k]);
    assert FindFrom(s, 8, IsLetterT) == 14;
  }

  /** `CALC ALL;` holds no AGG statement. */
  lemma NoAggInCalcAll()
    ensures Search("CALC ALL;", AggAt).None?
  {
    var t := "CALC ALL;";
    forall k | 0 <= k <= |t| ensures AggAt(t, k).None? {
      if k + 3 <= |t| {
        assert Upper(t[k..k + 3])[0] == UpperChar(t[k]) && Upper(t[k..k + 3])[1] == UpperChar(t[k + 1]);
      }
    }
    SearchNone(t, 0, AggAt);
  }

  /** `CALC ALL;` is not a CALC DIM statement. */
  lemma NoCalcDimInCalcAll()
    ensures Search("CALC ALL;", CalcDimAt).None?
  {
    var t := "CALC ALL;";
    forall k | 0 <= k <= |t| ensures CalcDimAt(t, k).None? {
      if 0 < k && k + 4 <= |t| {
        assert Upper(t[k..k + 4])[0] == UpperChar(t[k]) && Upper(t[k..k + 4])[1] == UpperChar(t[k + 1]);
      }
      if k == 0 {
        assert SpaceEnd(t, 4) == 5;
        assert Upper(t[5..8])[0] == UpperChar(t[5]);
      }
    }
    SearchNone(t, 0, CalcDimAt);
  }

  /** CALC ALL is an aggregation of everything. */
  lemma CalcAllIsAggregation()
    ensures Recognize("CALC ALL;") == Some(Transform(Aggregation, ["ALL"], "CALC ALL;", None))
  {
    var t := "CALC ALL;";
    NoAggInCalcAll();
    NoCalcDimInCalcAll();
    assert SpaceEnd(t, 4) == 5;
    assert KeywordAt(t, 5, "ALL");
    assert SpaceEnd(t, 8) == 8;
    assert CalcAllAt(t, 0).Some?;
  }

  /** `AGG(d1,…,dn);` over plain names is an aggregation of exactly those
      names. */
  lemma AggRoundTrip(dims: seq<string>)
    requires |dims| >= 1
    requires forall k :: 0 <= k < |dims| ==> PlainTarget(dims[k]) && ')' !in dims[k] && '\n' !in dims[k]
    ensures var t := "AGG(" + Join(dims, ",") + ");";
      '\n' !in t && Recognize(t).Some? &&
      Recognize(t).value.operation == Aggregation && Recognize(t).value.targets == dims
  {
    var j := Join(dims, ",");
    JoinKeepsOut(dims, ",", ')');
    JoinKeepsOut(dims, ",", '\n');
    if |dims| > 1 {
      assert j == dims[0] + "," + Join(dims[1..], ",");
    }
    AggAtGroup(j);
    TargetsRoundTrip(dims);
  }

  /** `AGG(j);` matches at the start with `j` as its argument list. */
  lemma AggAtGroup(j: string)
    requires j != [] && ')' !in j && '\n' !in j
    ensures var t := "AGG(" + j + ");";
      '\n' !in t && Search(t, AggAt) == Some(Hit(j, |t|))
  {
    var t := "AGG(" + j + ");";
    assert t[..3] == "AGG";
    assert KeywordAt(t, 0, "AGG");
    assert SpaceEnd(t, 3) == 3;
    assert forall k :: 4 <= k < 4 + |j| ==> t[k] == j[k - 4];
    FindFromAt(t, 4, 4 + |j|, IsCloseParen);
    assert t[4..4 + |j|] == j;
    assert SpaceEnd(t, 5 + |j|) == 5 + |j|;
    assert AggAt(t, 0) == Some(Hit(j, |t|));
  }

  // ----- member references -----

  /** The `Dim->Member` pairs and then the quoted names of a line, as
      entries to merge into the referenced-members dictionary. */
  function ReferenceEntries(t: string): seq<(string, seq<string>)> {
    var pairs := FindAll(t, 0, DimMemberAt);
    var quoted := FindAll(t, 0, MemberRefAt);
    seq(|pairs|, i requires 0 <= i < |pairs| => (pairs[i].0, [pairs[i].1])) +
    (if quoted == [] then [] else [("_uncategorized_", quoted)])
  }

  /** The referenced members after one more line: each `Dim->Member` under
      its dimension and each quoted name under `_uncategorized_`, once. */
  function ExtractMemberReferences(t: string, refs: OMap<string, seq<string>>): OMap<string, seq<string>> {
    MergeFrom(refs, ReferenceEntries(t))
  }

  /** The entries of a line hold a member under a key exactly when it is a
      `Dim->Member` pair of the line, or the key is `_uncategorized_` and
      the member a quoted name of the line. */
  lemma ReferenceEntriesIn(t: string, k: string, x: string)
    ensures (exists s :: (k, s) in ReferenceEntries(t) && x in s) <==>
      (k, x) in FindAll(t, 0, DimMemberAt) || (k == "_uncategorized_" && x in FindAll(t, 0, MemberRefAt))
  {
    var pairs := FindAll(t, 0, DimMemberAt);
    var quoted := FindAll(t, 0, MemberRefAt);
    var dims := seq(|pairs|, i requires 0 <= i < |pairs| => (pairs[i].0, [pairs[i].1]));
    var e := ReferenceEntries(t);
    assert e == dims + (if quoted == [] then [] else [("_uncategorized_", quoted)]);
    if (k, x) in pairs {
      var i :| 0 <= i < |pairs| && pairs[i] == (k, x);
      assert dims[i] in e;
    }
    if k == "_uncategorized_" && x in quoted {
      assert e[|dims|] == (k, quoted);
    }
  }

  /** Merging one line's references keeps every known list as a prefix,
      adds no repeats, and adds exactly that line's members: each
      `Dim->Member` under its dimension and each quoted name under
      `_uncategorized_`. */
  lemma ExtractMemberReferencesSpec(t: string, refs: OMap<string, seq<string>>, k: string, x: string)
    ensures GetOr(refs, k, []) <= GetOr(ExtractMemberReferences(t, refs), k, [])
    ensures Distinct(GetOr(refs, k, [])) ==> Distinct(GetOr(ExtractMemberReferences(t, refs), k, []))
    ensures x in GetOr(ExtractMemberReferences(t, refs), k, []) <==>
      x in GetOr(refs, k, []) || (k, x) in FindAll(t, 0, DimMemberAt) ||
      (k == "_uncategorized_" && x in FindAll(t, 0, MemberRefAt))
  {
    var e := ReferenceEntries(t);
    var vs := ValuesFor(e, k);
    MergeFromGet(refs, e, k);
    AddAllFacts(GetOr(refs, k, []), Flatten(vs));
    FlattenIn(vs, x);
    forall s ensures s in vs <==> (k, s) in e {
      ValuesForIn(e, k, s);
    }
    ReferenceEntriesIn(t, k, x);
  }

  /** A line's entries are keyed by the dimensions of its `Dim->Member`
      pairs, and by `_uncategorized_` when it quotes a name. */
  lemma ReferenceEntriesKeys(t: string, k: string)
    ensures k in Keys(ReferenceEntries(t)) <==>
      (exists y :: (k, y) in FindAll(t, 0, DimMemberAt)) ||
      (k == "_uncategorized_" && FindAll(t, 0, MemberRefAt) != [])
  {
    var e := ReferenceEntries(t);
    var pairs := FindAll(t, 0, DimMemberAt);
    var quoted := FindAll(t, 0, MemberRefAt);
    var dims := seq(|pairs|, i requires 0 <= i < |pairs| => (pairs[i].0, [pairs[i].1]));
    assert e == dims + (if quoted == [] then [] else [("_uncategorized_", quoted)]);
    if k in Keys(e) {
      var i :| 0 <= i < |e| && Keys(e)[i] == k;
      if i < |dims| {
        assert (k, pairs[i].1) in pairs;
      }
    }
    if y :| (k, y) in pairs {
      var i :| 0 <= i < |pairs| && pairs[i] == (k, y);
      assert Keys(e)[i] == k;
    }
    if k == "_uncategorized_" && quoted != [] {
      assert Keys(e)[|dims|] == k;
    }
  }

  /** A key is in the referenced members after a line exactly when it was
      known, the line pairs a member with it, or it is `_uncategorized_` and
      the line quotes a name. */
  lemma ExtractMemberReferencesKeys(t: string, refs: OMap<string, seq<string>>, k: string)
    ensures k in Keys(ExtractMemberReferences(t, refs)) <==>
      k in Keys(refs) || (exists y :: (k, y) in FindAll(t, 0, DimMemberAt)) ||
      (k == "_uncategorized_" && FindAll(t, 0, MemberRefAt) != [])
  {
    MergeFromKeys(refs, ReferenceEntries(t));
    AddAllFacts(Keys(refs), Keys(ReferenceEntries(t)));
    ReferenceEntriesKeys(t, k);
  }

  // ----- the script body -----

  /** What one line of the body is, before the scope it sits in is known:
      a statement carries the transform parsed as if on line 0 outside any
      FIX, and the entries its member references add. */
  datatype LineKind =
    | Skipped
    | FixOpen(members: FixContext)
    | FixClose
    | Statement(transform: Option<CalcTransform>, entries: seq<(string, seq<string>)>)

  /** Blank lines and comment lines are skipped (after stripping). */
  predicate IsSkipped(t: string) {
    t == [] || StartsWith(t, "/*") || StartsWith(t, "//")
  }

  lemma StripNoBreak(line: string)
    requires '\n' !in line
    ensures '\n' !in Strip(line)
  {
    StripSpec(line);
  }

  /** The kind of a line: skipped when blank or a comment; else a FIX when
      the FIX pattern occurs anywhere in it; else an ENDFIX when it starts
      with one; else a statement. */
  function Classify(line: string): (r: LineKind)
    requires '\n' !in line
    ensures r.Statement? ==> !IsSkipped(Strip(line))
    ensures r.Statement? && r.transform.Some? ==> r.transform.value.rawStatement == Strip(line)
  {
    var t := Strip(line);
    if IsSkipped(t) then Skipped
    else match Search(t, FixStartAt)
      case Some(h) => FixOpen(FixMembers(h.value))
      case None =>
        if IsEndFix(t) then FixClose
        else
          StripNoBreak(line);
          StripIdempotent(line);
          Statement(Recognize(t), ReferenceEntries(t))
  }

  /** The kinds told apart by the patterns they need. */
  lemma ClassifySpec(line: string)
    requires '\n' !in line
    ensures var t := Strip(line);
      (Classify(line) == Skipped <==> IsSkipped(t)) &&
      (Classify(line).FixOpen? <==> !IsSkipped(t) && exists k :: 0 <= k <= |t| && FixStartAt(t, k).Some?) &&
      (Classify(line) == FixClose <==>
        !IsSkipped(t) && (forall k :: 0 <= k <= |t| ==> FixStartAt(t, k).None?) && IsEndFix(t))
  {
    SearchNone(Strip(line), 0, FixStartAt);
  }

  datatype BodyState = BodyState(
    stack: seq<FixContext>,
    transforms: seq<CalcTransform>,
    refs: OMap<string, seq<string>>)

  /** The stack after an ENDFIX: one scope fewer, and no change when none is open. */
  function Pop(stack: seq<FixContext>): seq<FixContext> {
    if stack == [] then [] else stack[..|stack| - 1]
  }

  /** The FIX scope of a statement: none outside every FIX, else the merge
      of the open ones. */
  function Scope(stack: seq<FixContext>): Option<FixContext> {
    if stack == [] then None else Some(MergeContexts(stack))
  }

  /** One iteration of the line loop, for the line numbered `num`. */
  function Step(st: BodyState, kind: LineKind, num: nat): BodyState {
    match kind
    case Skipped => st
    case FixOpen(ms) => st.(stack := st.stack + [ms])
    case FixClose => st.(stack := Pop(st.stack))
    case Statement(op, entries) =>
      BodyState(
        st.stack,
        st.transforms + (if op.Some? then [op.value.(fixContext := Scope(st.stack), lineNumber := Some(num))] else []),
        MergeFrom(st.refs, entries))
  }

  function Kinds(lines: seq<string>): (r: seq<LineKind>)
    requires forall i :: 0 <= i < |lines| ==> '\n' !in lines[i]
    ensures |r| == |lines| && forall i :: 0 <= i < |lines| ==> r[i] == Classify(lines[i])
  {
    seq(|lines|, i requires 0 <= i < |lines| => Classify(lines[i]))
  }

  /** The state after the first `n` lines, numbered from 1. */
  function Run(kinds: seq<LineKind>, n: nat): BodyState
    requires n <= |kinds|
  {
    if n == 0 then BodyState([], [], [])
    else Step(Run(kinds, n - 1), kinds[n - 1], n)
  }

  /** The transforms and referenced members of a script: its lines are
      the pieces between line feeds. */
  function ParseScriptBody(content: string): (seq<CalcTransform>, OMap<string, seq<string>>) {
    var lines := Split(content, '\n');
    var st := Run(Kinds(lines), |lines|);
    (st.transforms, st.refs)
  }

  /** A statement line yields what `_parse_operation` gives for its
      number and the open scope. */
  lemma StatementTransform(st: BodyState, line: string, num: nat)
    requires '\n' !in line && '\n' !in Strip(line) && Classify(line).Statement?
    ensures var r := Step(st, Classify(line), num);
      r.transforms == st.transforms + (
        match ParseOperation(Strip(line), num, Scope(st.stack)) case None => [] case Some(x) => [x])
  {
    StripNoBreak(line);
    StripIdempotent(line);
  }

  /** An ENDFIX with no open FIX changes nothing. */
  lemma UnbalancedEndFixIgnored(st: BodyState, num: nat)
    requires st.stack == []
    ensures Step(st, FixClose, num) == st
  {
  }

  /** An ENDFIX undoes the FIX before it. */
  lemma FixThenEndFix(st: BodyState, ms: FixContext, num: nat)
    ensures Step(Step(st, FixOpen(ms), num), FixClose, num + 1) == st
  {
    assert (st.stack + [ms])[..|st.stack|] == st.stack;
  }

  /** A statement is scoped by the merged open FIXes, and by nothing outside
      every FIX; it records its own line number. */
  lemma StatementContext(st: BodyState, kind: LineKind, num: nat)
    ensures var r := Step(st, kind, num);
      st.transforms <= r.transforms && |r.transforms| <= |st.transforms| + 1 &&
      forall i :: |st.transforms| <= i < |r.transforms| ==>
        r.transforms[i].fixContext == Scope(st.stack) && r.transforms[i].lineNumber == Some(num) &&
        kind.Statement? && kind.transform.Some? && r.transforms[i].rawStatement == kind.transform.value.rawStatement
  {
  }

  /** Lines other than ENDFIX lines never close a scope: the stack only grows. */
  lemma {:induction false} OpenFixStaysOpen(kinds: seq<LineKind>, n: nat, m: nat)
    requires n <= m <= |kinds|
    requires forall i :: n <= i < m ==> kinds[i] != FixClose
    ensures Run(kinds, n).stack <= Run(kinds, m).stack
    decreases m - n
  {
    if n < m {
      OpenFixStaysOpen(kinds, n, m - 1);
    }
  }

  /** A FIX left open scopes every later statement. */
  lemma {:induction false} UnclosedFixScopes(kinds: seq<LineKind>, n: nat, m: nat)
    requires n <= m <= |kinds|
    requires Run(kinds, n).stack != []
    requires forall i :: n <= i < m ==> kinds[i] != FixClose
    ensures var before := Run(kinds, n).transforms;
      var after := Run(kinds, m).transforms;
      before <= after &&
      forall i :: |before| <= i < |after| ==> after[i].fixContext.Some?
    decreases m - n
  {
    if n < m {
      UnclosedFixScopes(kinds, n, m - 1);
      OpenFixStaysOpen(kinds, n, m - 1);
      StatementContext(Run(kinds, m - 1), kinds[m - 1], m);
    }
  }

  /** The transform `t` comes from the statement on one of the first `n`
      lines and records that line's number. */
  predicate FromLine(kinds: seq<LineKind>, t: CalcTransform, n: nat)
    requires n <= |kinds|
  {
    t.lineNumber.Some? && 1 <= t.lineNumber.value <= n && kinds[t.lineNumber.value - 1].Statement? &&
    kinds[t.lineNumber.value - 1].transform.Some? &&
    t.rawStatement == kinds[t.lineNumber.value - 1].transform.value.rawStatement
  }

  /** Every transform records its line, and the line numbers strictly
      increase along the list. */
  predicate LineOrdered(ts: seq<CalcTransform>) {
    (forall i :: 0 <= i < |ts| ==> ts[i].lineNumber.Some?) &&
    forall i, j :: 0 <= i < j < |ts| ==> ts[i].lineNumber.value < ts[j].lineNumber.value
  }

  /** Every transform records a 1-based line number within the lines read,
      in increasing order, and comes from the statement on that line. */
  lemma {:induction false} LineNumbers(kinds: seq<LineKind>, n: nat)
    requires n <= |kinds|
    ensures forall t :: t in Run(kinds, n).transforms ==> FromLine(kinds, t, n)
    ensures LineOrdered(Run(kinds, n).transforms)
    decreases n
  {
    if n > 0 {
      LineNumbers(kinds, n - 1);
      var st := Run(kinds, n - 1);
      var ts := Run(kinds, n).transforms;
      assert Run(kinds, n) == Step(st, kinds[n - 1], n);
      StatementContext(st, kinds[n - 1], n);
      forall t | t in ts ensures FromLine(kinds, t, n) {
        if t in st.transforms {
          assert FromLine(kinds, t, n - 1);
        } else {
          assert t == ts[|ts| - 1] && t.lineNumber == Some(n);
        }
      }
      forall i | 0 <= i < |ts| ensures ts[i].lineNumber.Some? {
        assert ts[i] in ts;
      }
      forall i, j | 0 <= i < j < |ts| ensures ts[i].lineNumber.value < ts[j].lineNumber.value {
        assert ts[i] == st.transforms[i];
        if j < |st.transforms| {
          assert ts[j] == st.transforms[j];
          assert LineOrdered(st.transforms);
        } else {
          assert st.transforms[i] in st.transforms;
          assert FromLine(kinds, ts[i], n - 1);
          assert ts[j].lineNumber == Some(n);
        }
      }
      assert LineOrdered(ts);
    }
  }

  /** A transform is the statement on the line it records. */
  predicate OnLine(lines: seq<string>, t: CalcTransform) {
    t.lineNumber.Some? && 1 <= t.lineNumber.value <= |lines| && t.rawStatement == Strip(lines[t.lineNumber.value - 1]) &&
    !IsSkipped(t.rawStatement)
  }

  lemma FromLineOnLine(lines: seq<string>, t: CalcTransform)
    requires forall i :: 0 <= i < |lines| ==> '\n' !in lines[i]
    requires FromLine(Kinds(lines), t, |lines|)
    ensures OnLine(lines, t)
  {
    var k := t.lineNumber.value - 1;
    assert Kinds(lines)[k] == Classify(lines[k]);
  }

  /** Line numbers are 1-based and count every line of the script, skipped
      ones included; each transform keeps the stripped text of its line,
      which is neither blank nor a comment. */
  lemma ScriptLineNumbers(content: string)
    ensures forall t :: t in ParseScriptBody(content).0 ==> OnLine(Split(content, '\n'), t)
    ensures LineOrdered(ParseScriptBody(content).0)
  {
    var lines := Split(content, '\n');
    var kinds := Kinds(lines);
    assert ParseScriptBody(content).0 == Run(kinds, |lines|).transforms;
    LineNumbers(kinds, |lines|);
    forall t | t in Run(kinds, |lines|).transforms ensures OnLine(lines, t) {
      FromLineOnLine(lines, t);
    }
  }
}
