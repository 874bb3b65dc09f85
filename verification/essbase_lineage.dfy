/** Column-level lineage of an Essbase cube: consolidation edges of the
    outline, the members a formula reads, the mappings of calc-script
    statements and of load rules, and the filter text of a FIX scope. */
module EssbaseLineage {
  import opened Basics
  import opened Text
  import opened OrderedMap
  import opened EssbaseModels
  import opened CalcParser
  import opened Scan

  /** One column-level lineage edge; the confidence is in hundredths. */
  datatype LineageMapping = LineageMapping(
    sourceDataset: string,
    sourceField: string,
    targetDataset: string,
    targetField: string,
    transformationType: Option<string>,
    expression: Option<string>,
    confidence: nat,
    aggregation: Option<string>,
    filter: Option<string>)

  /** The dataset of a cube, `application.cube`. */
  function DatasetName(app: string, cube: string): string {
    app + "." + cube
  }

  /** The field of a member, `Dimension.Member`. */
  function FieldPath(dim: string, member: string): string {
    dim + "." + member
  }

  // ----- consolidation -----

  /** The aggregation a consolidation operator stands for; an unknown
      operator counts as addition. */
  function ConsolidationToTransform(op: string): (r: string)
    ensures r == "SUM" <==> op == "+" || ConsolidationOf(op).None?
  {
    if op == "-" then "SUBTRACT"
    else if op == "*" then "MULTIPLY"
    else if op == "/" then "DIVIDE"
    else if op == "%" then "PERCENT"
    else if op == "~" then "IGNORE"
    else if op == "^" then "NEVER_CONSOLIDATE"
    else "SUM"
  }

  /** The seven operators of the outline map to seven different
      aggregations. */
  lemma ConsolidationTransformsDistinct(a: MemberConsolidation, b: MemberConsolidation)
    ensures ConsolidationToTransform(a.Symbol()) == ConsolidationToTransform(b.Symbol()) <==> a == b
  {
  }

  /** The name-to-member dictionary of a dimension, built member by member. */
  function MemberMap(members: seq<Member>): OMap<string, Member> {
    FromPairs(seq(|members|, i requires 0 <= i < |members| => (members[i].name, members[i])))
  }

  /** Looking a child up by name in the dictionary: a later member of the
      same name replaces an earlier one, so the answer is the last member
      of that name. */
  function LookupMember(members: seq<Member>, name: string): (r: Option<Member>)
    ensures r.None? <==> forall k :: 0 <= k < |members| ==> members[k].name != name
    ensures r.Some? ==> exists j :: LastNamed(members, j) && members[j].name == name && r.value == members[j]
  {
    MemberMapGet(members, name);
    Get(MemberMap(members), name)
  }

  lemma MemberMapGet(members: seq<Member>, name: string)
    ensures Get(MemberMap(members), name).None? <==> forall k :: 0 <= k < |members| ==> members[k].name != name
    ensures Get(MemberMap(members), name).Some? ==>
      exists j :: LastNamed(members, j) && members[j].name == name && Get(MemberMap(members), name).value == members[j]
  {
    var pairs := seq(|members|, i requires 0 <= i < |members| => (members[i].name, members[i]));
    assert MemberMap(members) == FromPairs(pairs);
    FromPairsMembers(pairs);
    assert forall k :: 0 <= k < |members| ==> Keys(pairs)[k] == members[k].name;
    if name in Keys(pairs) {
      var j := LastWithKeyExists(pairs, name);
      FromPairsGet(pairs, name, j);
      assert forall k :: j < k < |members| ==> pairs[k].0 == members[k].name;
      assert LastNamed(members, j);
    }
  }

  /** The edge from a child into its parent. */
  function ConsolidationMapping(ds: string, dim: string, parent: string, child: Member): LineageMapping {
    var op := child.consolidation.Symbol();
    LineageMapping(ds, FieldPath(dim, child.name), ds, FieldPath(dim, parent), Some("consolidation"),
      Some(op + child.name), 100, Some(ConsolidationToTransform(op)), None)
  }

  /** The edges into one parent, one per listed child that names a member. */
  function ChildMappings(ds: string, dim: string, parent: string, children: seq<string>, members: seq<Member>): seq<LineageMapping>
    decreases |children|
  {
    if children == [] then []
    else
      var n := |children| - 1;
      ChildMappings(ds, dim, parent, children[..n], members) + ChildMapping(ds, dim, parent, children[n], members)
  }

  /** The edge from one listed child, if it names a member. */
  function ChildMapping(ds: string, dim: string, parent: string, child: string, members: seq<Member>): seq<LineageMapping> {
    match LookupMember(members, child)
    case Some(c) => [ConsolidationMapping(ds, dim, parent, c)]
    case None => []
  }

  /** The edges of one dimension, parent by parent in outline order. */
  function DimensionConsolidation(ds: string, d: Dimension): seq<LineageMapping> {
    var ms := d.members;
    Flatten(seq(|ms|, i requires 0 <= i < |ms| => ChildMappings(ds, d.name, ms[i].name, ms[i].children, ms)))
  }

  /** The consolidation lineage of a cube, dimension by dimension. */
  function ConsolidationLineage(c: Cube): seq<LineageMapping> {
    var ds := DatasetName(c.application, c.name);
    var dims := c.dimensions;
    Flatten(seq(|dims|, k requires 0 <= k < |dims| => DimensionConsolidation(ds, dims[k])))
  }

  /** `x` is the edge from a listed child, the last member of its name,
      into `parent`. */
  ghost predicate ChildEdge(ds: string, dim: string, parent: string, children: seq<string>, members: seq<Member>,
                            x: LineageMapping)
  {
    exists j :: LastNamed(members, j) && members[j].name in children &&
      x == ConsolidationMapping(ds, dim, parent, members[j])
  }

  /** `x` is the edge from the last member named `child` into `parent`. */
  ghost predicate NamedEdge(ds: string, dim: string, parent: string, child: string, members: seq<Member>,
                            x: LineageMapping)
  {
    exists j :: LastNamed(members, j) && members[j].name == child &&
      x == ConsolidationMapping(ds, dim, parent, members[j])
  }

  lemma ChildMappingSpec(ds: string, dim: string, parent: string, child: string, members: seq<Member>,
                         x: LineageMapping)
    ensures x in ChildMapping(ds, dim, parent, child, members) <==> NamedEdge(ds, dim, parent, child, members, x)
  {
    var r := LookupMember(members, child);
    if NamedEdge(ds, dim, parent, child, members, x) {
      var j :| LastNamed(members, j) && members[j].name == child &&
        x == ConsolidationMapping(ds, dim, parent, members[j]);
      var j' :| LastNamed(members, j') && members[j'].name == child && r.value == members[j'];
      LastNamedUnique(members, j, j');
    }
  }

  lemma ChildEdgeSnoc(ds: string, dim: string, parent: string, children: seq<string>, members: seq<Member>,
                      x: LineageMapping)
    requires children != []
    ensures ChildEdge(ds, dim, parent, children, members, x) <==>
      ChildEdge(ds, dim, parent, children[..|children| - 1], members, x) ||
      NamedEdge(ds, dim, parent, children[|children| - 1], members, x)
  {
    var n := |children| - 1;
    assert children == children[..n] + [children[n]];
    if ChildEdge(ds, dim, parent, children, members, x) {
      var j :| LastNamed(members, j) && members[j].name in children &&
        x == ConsolidationMapping(ds, dim, parent, members[j]);
      assert members[j].name in children[..n] || members[j].name == children[n];
    }
    if NamedEdge(ds, dim, parent, children[n], members, x) {
      var j :| LastNamed(members, j) && members[j].name == children[n] &&
        x == ConsolidationMapping(ds, dim, parent, members[j]);
      assert members[j].name in children;
    }
  }

  /** The edges into a parent are exactly those from its listed children
      that exist in the dimension; children that name no member are
      skipped. */
  lemma {:induction false} ChildMappingsSpec(ds: string, dim: string, parent: string, children: seq<string>,
                                             members: seq<Member>, x: LineageMapping)
    ensures x in ChildMappings(ds, dim, parent, children, members) <==> ChildEdge(ds, dim, parent, children, members, x)
    decreases |children|
  {
    if children != [] {
      var n := |children| - 1;
      ChildMappingsSpec(ds, dim, parent, children[..n], members, x);
      ChildMappingSpec(ds, dim, parent, children[n], members, x);
      ChildEdgeSnoc(ds, dim, parent, children, members, x);
    }
  }

  /** Member `i` lists as a child the name of member `j`, the last member of
      that name. */
  predicate ConsolidationEdge(d: Dimension, i: int, j: int) {
    0 <= i < |d.members| && LastNamed(d.members, j) && d.members[j].name in d.members[i].children
  }

  /** One mapping per (parent, existing child) pair of a dimension: source
      `Dim.child`, target `Dim.parent`, type "consolidation", and the
      child's operator before its name as the expression. */
  lemma DimensionConsolidationSpec(ds: string, d: Dimension, x: LineageMapping)
    ensures x in DimensionConsolidation(ds, d) <==>
      exists i, j :: ConsolidationEdge(d, i, j) &&
        x == ConsolidationMapping(ds, d.name, d.members[i].name, d.members[j])
  {
    var ms := d.members;
    var ss := seq(|ms|, i requires 0 <= i < |ms| => ChildMappings(ds, d.name, ms[i].name, ms[i].children, ms));
    FlattenIn(ss, x);
    if x in DimensionConsolidation(ds, d) {
      var s :| s in ss && x in s;
      var i :| 0 <= i < |ss| && ss[i] == s;
      ChildMappingsSpec(ds, d.name, ms[i].name, ms[i].children, ms, x);
      var j :| LastNamed(ms, j) && ms[j].name in ms[i].children &&
        x == ConsolidationMapping(ds, d.name, ms[i].name, ms[j]);
      assert ConsolidationEdge(d, i, j);
    }
    if exists i, j :: ConsolidationEdge(d, i, j) && x == ConsolidationMapping(ds, d.name, ms[i].name, ms[j]) {
      var i, j :| ConsolidationEdge(d, i, j) && x == ConsolidationMapping(ds, d.name, ms[i].name, ms[j]);
      ChildMappingsSpec(ds, d.name, ms[i].name, ms[i].children, ms, x);
      assert ss[i] in ss;
    }
  }

  /** The cube's consolidation lineage holds an edge exactly when some
      dimension has it. */
  lemma ConsolidationLineageSpec(c: Cube, x: LineageMapping)
    ensures x in ConsolidationLineage(c) <==>
      exists k :: 0 <= k < |c.dimensions| && x in DimensionConsolidation(DatasetName(c.application, c.name), c.dimensions[k])
  {
    var ds := DatasetName(c.application, c.name);
    var dims := c.dimensions;
    var ss := seq(|dims|, k requires 0 <= k < |dims| => DimensionConsolidation(ds, dims[k]));
    FlattenIn(ss, x);
    if exists k :: 0 <= k < |dims| && x in DimensionConsolidation(ds, dims[k]) {
      var k :| 0 <= k < |dims| && x in DimensionConsolidation(ds, dims[k]);
      assert ss[k] in ss;
    }
  }

  // ----- FIX scope as a filter -----

  /** The key under which the parser files FIX members it could not place. */
  const Unresolved: string := "_unresolved_"

  predicate IsResolved(e: (string, seq<string>)) { e.0 != Unresolved }

  /** The members of a dimension, each in double quotes. */
  function Quoted(members: seq<string>): (r: seq<string>)
    ensures |r| == |members|
  {
    seq(|members|, i requires 0 <= i < |members| => "\"" + members[i] + "\"")
  }

  /** `Dim IN ("m1", "m2")`. */
  function InClause(e: (string, seq<string>)): string {
    e.0 + " IN (" + Join(Quoted(e.1), ", ") + ")"
  }

  /** The IN clauses of the scope, entry by entry, skipping unresolved
      members. */
  function FilterParts(ctx: FixContext): (r: seq<string>)
    ensures r == [] <==> forall i :: 0 <= i < |ctx| ==> ctx[i].0 == Unresolved
    decreases |ctx|
  {
    if ctx == [] then []
    else
      var n := |ctx| - 1;
      var prefix := FilterParts(ctx[..n]);
      assert forall i :: 0 <= i < n ==> ctx[..n][i] == ctx[i];
      prefix + if IsResolved(ctx[n]) then [InClause(ctx[n])] else []
  }

  /** The clauses are those of the resolved entries, in the scope's order. */
  lemma {:induction false} FilterPartsSpec(ctx: FixContext)
    ensures var kept := Filter(ctx, IsResolved);
      |FilterParts(ctx)| == |kept| &&
      forall i :: 0 <= i < |kept| ==> FilterParts(ctx)[i] == InClause(kept[i])
    decreases |ctx|
  {
    if ctx != [] {
      var n := |ctx| - 1;
      FilterPartsSpec(ctx[..n]);
      assert ctx == ctx[..n] + [ctx[n]];
      FilterAppend(ctx[..n], [ctx[n]], IsResolved);
    }
  }

  /** `_fix_context_to_filter`: no filter without a scope, for an empty one,
      or when only unresolved members are in it; otherwise the clauses
      joined with AND. */
  function FixContextToFilter(ctx: Option<FixContext>): (r: Option<string>)
    ensures r.None? <==> ctx.None? || forall i :: 0 <= i < |ctx.value| ==> ctx.value[i].0 == Unresolved
    ensures r.Some? ==> r.value == Join(FilterParts(ctx.value), " AND ")
  {
    match ctx
    case None => None
    case Some(m) =>
      var parts := FilterParts(m);
      if parts == [] then None else Some(Join(parts, " AND "))
  }

  // ----- formula references -----

  /** `open([^close]+)close` at `p`: the non-empty text up to the first
      closing character. */
  function DelimitedAt(s: string, p: nat, open: char, isClose: char -> bool): (r: Option<Hit<string>>)
    ensures r.Some? ==> p < r.value.end <= |s| && r.value.value != []
    ensures r.Some? ==> forall k :: 0 <= k < |r.value.value| ==> !isClose(r.value.value[k])
  {
    if p >= |s| || s[p] != open then None
    else
      var c := FindFrom(s, p + 1, isClose);
      if p + 1 < c < |s| then Some(Hit(s[p + 1..c], c + 1)) else None
  }

  /** `"([^"]+)"`. */
  function DoubleQuotedAt(s: string, p: nat): (r: Option<Hit<string>>)
    ensures r.Some? ==> p < r.value.end <= |s| && r.value.value != [] && '"' !in r.value.value
  {
    DelimitedAt(s, p, '"', IsDoubleQuote)
  }

  /** `'([^']+)'`. */
  function SingleQuotedAt(s: string, p: nat): (r: Option<Hit<string>>)
    ensures r.Some? ==> p < r.value.end <= |s| && r.value.value != [] && '\'' !in r.value.value
  {
    DelimitedAt(s, p, '\'', IsSingleQuote)
  }

  /** `\[([^\]]+)\]`. */
  function BracketedAt(s: string, p: nat): (r: Option<Hit<string>>)
    ensures r.Some? ==> p < r.value.end <= |s| && r.value.value != [] && ']' !in r.value.value
  {
    DelimitedAt(s, p, '[', IsCloseBracket)
  }

  /** A name written between its delimiters is read back whole. */
  lemma DelimitedRoundTrip(open: char, close: char, isClose: char -> bool, name: string, rest: string)
    requires isClose(close) && name != [] && forall k :: 0 <= k < |name| ==> !isClose(name[k])
    ensures var s := [open] + name + [close] + rest;
      DelimitedAt(s, 0, open, isClose) == Some(Hit(name, |name| + 2))
  {
    var s := [open] + name + [close] + rest;
    assert s[1..|name| + 1] == name;
    assert s[|name| + 1] == close;
    assert FindFrom(s, 1, isClose) == |name| + 1;
  }

  /** The class `[^"'\s,;()]` of member names after `->` in a formula. */
  predicate IsRefMemberChar(c: char) {
    IsMemberChar(c) && c != '(' && c != ')'
  }

  /** `(\w+)->(["']?)([^"'\s,;()]+)\2` at `p`: the dimension and the member;
      a member that opens with a quote must close with the same one. */
  function RefDimMemberAt(s: string, p: nat): (r: Option<Hit<(string, string)>>)
    ensures r.Some? ==> p < r.value.end <= |s| && r.value.value.0 != [] && r.value.value.1 != []
    ensures r.Some? ==> forall k :: 0 <= k < |r.value.value.1| ==> IsRefMemberChar(r.value.value.1[k])
  {
    if p >= |s| || !IsWordChar(s[p]) then None
    else
      var we := WordEnd(s, p);
      if !LiteralAt(s, we, "->") then None
      else
        var q := we + 2;
        if q < |s| && IsQuote(s[q]) then
          var e := RunEnd(s, q + 1, IsRefMemberChar);
          if q + 1 < e < |s| && s[e] == s[q] then Some(Hit((s[p..we], s[q + 1..e]), e + 1)) else None
        else
          var e := RunEnd(s, q, IsRefMemberChar);
          if q < e then Some(Hit((s[p..we], s[q..e]), e)) else None
  }

  /** `Dim->Member` written out is read back as the pair, the member ending
      at the first character outside its class. */
  lemma RefDimMemberRoundTrip(dim: string, member: string, rest: string)
    requires dim != [] && forall k :: 0 <= k < |dim| ==> IsWordChar(dim[k])
    requires member != [] && forall k :: 0 <= k < |member| ==> IsRefMemberChar(member[k])
    requires rest == [] || !IsRefMemberChar(rest[0])
    ensures RefDimMemberAt(dim + "->" + member + rest, 0) == Some(Hit((dim, member), |dim| + 2 + |member|))
  {
    var s := dim + "->" + member + rest;
    var q := |dim| + 2;
    assert s[..|dim|] == dim;
    assert s[|dim|] == '-';
    RunEndAt(s, 0, |dim|, IsWordChar);
    assert s[|dim|..q] == "->";
    assert s[q] == member[0];
    assert forall k :: q <= k < q + |member| ==> s[k] == member[k - q];
    RunEndAt(s, q, q + |member|, IsRefMemberChar);
    assert s[q..q + |member|] == member;
  }

  /** The aggregation functions looked for, in the order they are tried,
      with the tag each gives. */
  const AggregationTags: seq<(string, string)> := [
    ("@SUM", "SUM"), ("@AVG", "AVG"), ("@COUNT", "COUNT"), ("@MAX", "MAX"), ("@MIN", "MIN"),
    ("@PRIOR", "PRIOR"), ("@PARENTVAL", "PARENT_VALUE")]

  /** `<name>\s*\(` at `p`, ignoring case. */
  predicate CallAt(s: string, p: nat, name: string) {
    KeywordAt(s, p, name) && SpaceEnd(s, p + |name|) < |s| && s[SpaceEnd(s, p + |name|)] == '('
  }

  /** `re.search(name + r'\s*\(', formula, re.IGNORECASE)` succeeds. */
  predicate HasCall(f: string, name: string) {
    exists p :: 0 <= p <= |f| && CallAt(f, p, name)
  }

  /** The tags tried in turn, each one found overwriting the previous. */
  function TagFold(f: string, tags: seq<(string, string)>, acc: Option<string>): Option<string>
    decreases |tags|
  {
    if tags == [] then acc
    else TagFold(f, tags[1..], if HasCall(f, tags[0].0) then Some(tags[0].1) else acc)
  }

  /** Tag `i` is found and no later one is; `i == -1` when none is found. */
  predicate LastCalledAt(f: string, tags: seq<(string, string)>, i: int) {
    -1 <= i < |tags| && (i >= 0 ==> HasCall(f, tags[i].0)) &&
    forall j :: i < j < |tags| ==> !HasCall(f, tags[j].0)
  }

  /** The last tag found, by a scan from the end. */
  function LastCalled(f: string, tags: seq<(string, string)>): (i: int)
    ensures LastCalledAt(f, tags, i)
    decreases |tags|
  {
    if tags == [] then -1
    else if HasCall(f, tags[|tags| - 1].0) then |tags| - 1
    else LastCalled(f, tags[..|tags| - 1])
  }

  /** Trying the tags in order leaves the last one found. */
  lemma {:induction false} TagFoldLast(f: string, tags: seq<(string, string)>, acc: Option<string>, i: int)
    requires LastCalledAt(f, tags, i)
    ensures TagFold(f, tags, acc) == if i >= 0 then Some(tags[i].1) else acc
    decreases |tags|
  {
    if tags != [] {
      var acc' := if HasCall(f, tags[0].0) then Some(tags[0].1) else acc;
      assert LastCalledAt(f, tags[1..], if i >= 1 then i - 1 else -1);
      TagFoldLast(f, tags[1..], acc', if i >= 1 then i - 1 else -1);
    }
  }

  /** The aggregation tag of a formula: that of the last function in the
      fixed order that the formula calls, none when it calls none. */
  function AggregationTag(f: string): (r: Option<string>)
    ensures var i := LastCalled(f, AggregationTags);
      r == if i >= 0 then Some(AggregationTags[i].1) else None
  {
    TagFoldLast(f, AggregationTags, None, LastCalled(f, AggregationTags));
    TagFold(f, AggregationTags, None)
  }

  /** A formula calling `@PARENTVAL` is tagged PARENT_VALUE whatever else it
      calls, PARENTVAL being tried last. */
  lemma ParentValueWins(f: string)
    requires HasCall(f, "@PARENTVAL")
    ensures AggregationTag(f) == Some("PARENT_VALUE")
  {
    assert LastCalledAt(f, AggregationTags, 6);
    TagFoldLast(f, AggregationTags, None, 6);
  }

  /** A formula calling none of the functions carries no tag. */
  lemma NoCallNoTag(f: string)
    requires forall j :: 0 <= j < |AggregationTags| ==> !HasCall(f, AggregationTags[j].0)
    ensures AggregationTag(f) == None
  {
    assert LastCalledAt(f, AggregationTags, -1);
    TagFoldLast(f, AggregationTags, None, -1);
  }

  /** Some member of the dimension carries the name. */
  predicate HasMember(d: Dimension, name: string) {
    GetMember(d, name).Some?
  }

  /** Dimension `i` is the first of the cube that has the member. */
  predicate FirstWithMember(dims: seq<Dimension>, name: string, i: int) {
    0 <= i < |dims| && HasMember(dims[i], name) && forall j :: 0 <= j < i ==> !HasMember(dims[j], name)
  }

  /** `_resolve_member_dimension` without its cache: the first dimension,
      in cube order, with a member of that name. */
  function ResolveMemberDimension(dims: seq<Dimension>, name: string): (r: Option<Dimension>)
    ensures r.None? <==> forall i :: 0 <= i < |dims| ==> !HasMember(dims[i], name)
    ensures r.Some? ==> exists i :: FirstWithMember(dims, name, i) && r.value == dims[i]
  {
    if dims == [] then None
    else if HasMember(dims[0], name) then
      assert FirstWithMember(dims, name, 0);
      Some(dims[0])
    else
      var r := ResolveMemberDimension(dims[1..], name);
      if r.Some? then
        var i :| FirstWithMember(dims[1..], name, i) && r.value == dims[1..][i];
        assert FirstWithMember(dims, name, i + 1);
        r
      else r
  }

  /** The first dimension with exactly this name: the lookup of a cached
      dimension name. */
  function DimensionNamed(dims: seq<Dimension>, dimName: string): (r: Option<Dimension>)
    ensures r.None? <==> forall i :: 0 <= i < |dims| ==> dims[i].name != dimName
    ensures r.Some? ==> r.value in dims && r.value.name == dimName
  {
    if dims == [] then None
    else if dims[0].name == dimName then Some(dims[0])
    else DimensionNamed(dims[1..], dimName)
  }

  /** The cache key `application.cube.member`. */
  function CacheKey(c: Cube, name: string): string {
    c.application + "." + c.name + "." + name
  }

  /** Within one cube, the key tells the member. */
  lemma CacheKeyInjective(c: Cube, a: string, b: string)
    requires CacheKey(c, a) == CacheKey(c, b)
    ensures a == b
  {
    var prefix := c.application + "." + c.name + ".";
    assert CacheKey(c, a) == prefix + a && CacheKey(c, b) == prefix + b;
    assert a == (prefix + a)[|prefix|..];
    assert b == (prefix + b)[|prefix|..];
  }

  /** One call with the cache: a cached dimension name is looked up
      among the cube's dimensions; otherwise the cube is scanned and a
      found dimension's name is stored. */
  function ResolveCached(cache: map<string, string>, c: Cube, name: string): (Option<Dimension>, map<string, string>) {
    var key := CacheKey(c, name);
    if key in cache then (DimensionNamed(c.dimensions, cache[key]), cache)
    else match ResolveMemberDimension(c.dimensions, name)
      case Some(d) => (Some(d), cache[key := d.name])
      case None => (None, cache)
  }

  /** Every entry of the cache for this cube records what a scan of the
      cube finds. */
  ghost predicate CacheSound(cache: map<string, string>, c: Cube) {
    forall name :: CacheKey(c, name) in cache ==>
      ResolveMemberDimension(c.dimensions, name).Some? &&
      cache[CacheKey(c, name)] == ResolveMemberDimension(c.dimensions, name).value.name
  }

  predicate DistinctDimensionNames(c: Cube) {
    forall i, j :: 0 <= i < j < |c.dimensions| ==> c.dimensions[i].name != c.dimensions[j].name
  }

  /** With distinct dimension names, a cache that agrees with the cube
      gives the answer of the scan and still agrees afterwards; the empty
      cache agrees with every cube. */
  lemma ResolveCachedAgrees(cache: map<string, string>, c: Cube, name: string)
    requires CacheSound(cache, c) && DistinctDimensionNames(c)
    ensures ResolveCached(cache, c, name).0 == ResolveMemberDimension(c.dimensions, name)
    ensures CacheSound(ResolveCached(cache, c, name).1, c)
  {
    var key := CacheKey(c, name);
    var dims := c.dimensions;
    var scan := ResolveMemberDimension(dims, name);
    if key in cache {
      var i :| FirstWithMember(dims, name, i) && scan.value == dims[i];
      var r := DimensionNamed(dims, cache[key]);
      assert r.Some? by {
        assert dims[i].name == cache[key];
      }
      var k :| 0 <= k < |dims| && dims[k] == r.value;
      assert dims[k].name == dims[i].name;
      assert k == i;
    } else if scan.Some? {
      var cache' := cache[key := scan.value.name];
      forall n | CacheKey(c, n) in cache'
        ensures ResolveMemberDimension(dims, n).Some? &&
          cache'[CacheKey(c, n)] == ResolveMemberDimension(dims, n).value.name
      {
        if CacheKey(c, n) == key {
          CacheKeyInjective(c, n, name);
        }
      }
    }
  }

  lemma EmptyCacheSound(c: Cube)
    ensures CacheSound(map[], c)
  {
  }

  /** One source member a formula reads. */
  datatype FormulaRef = FormulaRef(fieldPath: string, dimension: string, member: string, aggregation: Option<string>)

  /** The quoted and bracketed names of a formula: every double-quoted one,
      then every single-quoted one, then every bracketed one. */
  function QuotedNames(f: string): seq<string> {
    FindAll(f, 0, DoubleQuotedAt) + FindAll(f, 0, SingleQuotedAt) + FindAll(f, 0, BracketedAt)
  }

  /** The dimension a quoted name is filed under: the first dimension that
      has it, else the formula's own. */
  function QuotedDimension(dims: seq<Dimension>, context: string, name: string): string {
    match ResolveMemberDimension(dims, name)
    case Some(d) => d.name
    case None => context
  }

  /** `dim` is where a quoted `name` is filed. */
  ghost predicate FiledUnder(dims: seq<Dimension>, context: string, name: string, dim: string) {
    (exists i :: FirstWithMember(dims, name, i) && dims[i].name == dim) ||
    ((forall i :: 0 <= i < |dims| ==> !HasMember(dims[i], name)) && dim == context)
  }

  /** `_parse_formula_references`: the quoted names, then the `Dim->Member`
      pairs, duplicates kept, each tagged with the formula's aggregation. */
  function ParseFormulaReferences(f: string, context: string, dims: seq<Dimension>): (r: seq<FormulaRef>)
    ensures |r| == |QuotedNames(f)| + |FindAll(f, 0, RefDimMemberAt)|
    ensures forall i :: 0 <= i < |r| ==>
      r[i].aggregation == AggregationTag(f) && r[i].fieldPath == FieldPath(r[i].dimension, r[i].member)
  {
    var tag := AggregationTag(f);
    QuotedRefs(QuotedNames(f), context, dims, tag) + ArrowRefs(FindAll(f, 0, RefDimMemberAt), tag)
  }

  /** The references begin with the quoted names, in the order found, each
      filed under the first dimension that has it, else the formula's own. */
  lemma QuotedReferencesSpec(f: string, context: string, dims: seq<Dimension>)
    ensures var r := ParseFormulaReferences(f, context, dims);
      forall i :: 0 <= i < |QuotedNames(f)| ==>
        r[i].member == QuotedNames(f)[i] && FiledUnder(dims, context, r[i].member, r[i].dimension)
  {
    var q := QuotedRefs(QuotedNames(f), context, dims, AggregationTag(f));
    var r := ParseFormulaReferences(f, context, dims);
    assert r[..|q|] == q;
  }

  /** After the quoted names come the `Dim->Member` pairs, as written. */
  lemma ArrowReferencesSpec(f: string, context: string, dims: seq<Dimension>)
    ensures var r := ParseFormulaReferences(f, context, dims);
      var q := |QuotedNames(f)|; var arrows := FindAll(f, 0, RefDimMemberAt);
      forall k :: 0 <= k < |arrows| ==> r[q + k].dimension == arrows[k].0 && r[q + k].member == arrows[k].1
  {
    var q := QuotedRefs(QuotedNames(f), context, dims, AggregationTag(f));
    var a := ArrowRefs(FindAll(f, 0, RefDimMemberAt), AggregationTag(f));
    var r := ParseFormulaReferences(f, context, dims);
    assert r[|q|..] == a;
  }

  /** The references of quoted names, each filed under its dimension. */
  function QuotedRefs(names: seq<string>, context: string, dims: seq<Dimension>, tag: Option<string>): (r: seq<FormulaRef>)
    ensures |r| == |names|
    ensures forall i :: 0 <= i < |r| ==>
      r[i].aggregation == tag && r[i].fieldPath == FieldPath(r[i].dimension, r[i].member) &&
      r[i].member == names[i] && FiledUnder(dims, context, r[i].member, r[i].dimension)
  {
    var r := seq(|names|, i requires 0 <= i < |names| =>
      var dim := QuotedDimension(dims, context, names[i]);
      FormulaRef(FieldPath(dim, names[i]), dim, names[i], tag));
    forall i | 0 <= i < |names| ensures FiledUnder(dims, context, names[i], r[i].dimension) {
      QuotedDimensionFiled(dims, context, names[i]);
    }
    r
  }

  lemma QuotedDimensionFiled(dims: seq<Dimension>, context: string, name: string)
    ensures FiledUnder(dims, context, name, QuotedDimension(dims, context, name))
  {
  }

  /** The references of `Dim->Member` pairs, as written. */
  function ArrowRefs(arrows: seq<(string, string)>, tag: Option<string>): (r: seq<FormulaRef>)
    ensures |r| == |arrows|
    ensures forall k :: 0 <= k < |r| ==>
      r[k].aggregation == tag && r[k].fieldPath == FieldPath(r[k].dimension, r[k].member) &&
      r[k].dimension == arrows[k].0 && r[k].member == arrows[k].1
  {
    seq(|arrows|, k requires 0 <= k < |arrows| =>
      FormulaRef(FieldPath(arrows[k].0, arrows[k].1), arrows[k].0, arrows[k].1, tag))
  }

  /** The mappings of one member: one per reference of its formula, into
      `Dim.Member`, none when it has no formula. */
  function FormulaMappings(ds: string, d: Dimension, m: Member, dims: seq<Dimension>): (r: seq<LineageMapping>)
    ensures r != [] ==> m.HasFormula()
    ensures m.HasFormula() ==> |r| == |ParseFormulaReferences(m.formula.value, d.name, dims)|
    ensures forall x :: x in r ==>
      x.targetField == FieldPath(d.name, m.name) && x.expression == m.formula &&
      x.transformationType == Some("member_formula")
  {
    if !m.HasFormula() then []
    else
      var refs := ParseFormulaReferences(m.formula.value, d.name, dims);
      seq(|refs|, i requires 0 <= i < |refs| =>
        LineageMapping(ds, refs[i].fieldPath, ds, FieldPath(d.name, m.name), Some("member_formula"),
          m.formula, 100, refs[i].aggregation, None))
  }

  /** The member-formula lineage of one dimension, member by member. */
  function DimensionFormulaLineage(ds: string, d: Dimension, dims: seq<Dimension>): seq<LineageMapping> {
    var ms := d.members;
    Flatten(seq(|ms|, i requires 0 <= i < |ms| => FormulaMappings(ds, d, ms[i], dims)))
  }

  /** The member-formula lineage of a cube, dimension by dimension. */
  function MemberFormulaLineage(c: Cube): seq<LineageMapping> {
    var ds := DatasetName(c.application, c.name);
    var dims := c.dimensions;
    Flatten(seq(|dims|, k requires 0 <= k < |dims| => DimensionFormulaLineage(ds, dims[k], dims)))
  }

  /** `x` is one of the mappings of member `i` of dimension `k`. */
  predicate FormulaEdge(c: Cube, k: int, i: int, x: LineageMapping) {
    0 <= k < |c.dimensions| && 0 <= i < |c.dimensions[k].members| &&
    x in FormulaMappings(DatasetName(c.application, c.name), c.dimensions[k], c.dimensions[k].members[i], c.dimensions)
  }

  lemma DimensionFormulaLineageSpec(ds: string, d: Dimension, dims: seq<Dimension>, x: LineageMapping)
    ensures x in DimensionFormulaLineage(ds, d, dims) <==>
      exists i :: 0 <= i < |d.members| && x in FormulaMappings(ds, d, d.members[i], dims)
  {
    var ms := d.members;
    var ss := seq(|ms|, i requires 0 <= i < |ms| => FormulaMappings(ds, d, ms[i], dims));
    FlattenIn(ss, x);
    if exists i :: 0 <= i < |ms| && x in FormulaMappings(ds, d, ms[i], dims) {
      var i :| 0 <= i < |ms| && x in FormulaMappings(ds, d, ms[i], dims);
      assert ss[i] in ss;
    }
  }

  /** The member-formula lineage of a cube is the union of the mappings of
      its members, each reading one reference of the member's formula. */
  lemma MemberFormulaLineageSpec(c: Cube, x: LineageMapping)
    ensures x in MemberFormulaLineage(c) <==> exists k, i :: FormulaEdge(c, k, i, x)
  {
    var ds := DatasetName(c.application, c.name);
    var dims := c.dimensions;
    var ss := seq(|dims|, k requires 0 <= k < |dims| => DimensionFormulaLineage(ds, dims[k], dims));
    FlattenIn(ss, x);
    if x in MemberFormulaLineage(c) {
      var s :| s in ss && x in s;
      var k :| 0 <= k < |ss| && ss[k] == s;
      DimensionFormulaLineageSpec(ds, dims[k], dims, x);
      var i :| 0 <= i < |dims[k].members| && x in FormulaMappings(ds, dims[k], dims[k].members[i], dims);
      assert FormulaEdge(c, k, i, x);
    }
    if exists k, i :: FormulaEdge(c, k, i, x) {
      var k, i :| FormulaEdge(c, k, i, x);
      DimensionFormulaLineageSpec(ds, dims[k], dims, x);
      assert ss[k] in ss;
    }
  }

  /** A member-formula mapping leads into a member with a formula, carries
      that formula, and is typed "member_formula". */
  lemma FormulaEdgeTarget(c: Cube, k: int, i: int, x: LineageMapping)
    requires FormulaEdge(c, k, i, x)
    ensures var m := c.dimensions[k].members[i];
      m.HasFormula() && x.targetField == FieldPath(c.dimensions[k].name, m.name) &&
      x.expression == m.formula && x.transformationType == Some("member_formula")
  {
  }

  // ----- calc scripts as jobs -----

  /** One step of a job. */
  datatype TransformOperation = TransformOperation(
    operationId: string,
    operationType: string,
    name: string,
    inputFields: seq<LineageMapping>,
    outputFields: seq<string>,
    logic: string,
    fixContext: Option<FixContext>,
    lineRange: Option<(nat, nat)>)

  /** A job: its datasets, column lineage, steps and custom properties. */
  datatype LineageJob = LineageJob(
    name: string,
    jobType: string,
    inputs: seq<string>,
    outputs: seq<string>,
    lineage: seq<LineageMapping>,
    operations: seq<TransformOperation>,
    properties: seq<(string, string)>)

  /** One source paired with every target, in order. */
  function Row(source: string, targets: seq<string>): (r: seq<(string, string)>)
    ensures |r| == |targets|
  {
    seq(|targets|, j requires 0 <= j < |targets| => (source, targets[j]))
  }

  /** The (source, target) pairs of a formula: every target of the first
      source, then of the second, and so on. */
  function Pairs(sources: seq<string>, targets: seq<string>): seq<(string, string)>
    decreases |sources|
  {
    if sources == [] then []
    else Pairs(sources[..|sources| - 1], targets) + Row(sources[|sources| - 1], targets)
  }

  /** There is one pair per source and target, and nothing else. */
  lemma {:induction false} PairsSpec(sources: seq<string>, targets: seq<string>)
    ensures |Pairs(sources, targets)| == |sources| * |targets|
    ensures forall p :: p in Pairs(sources, targets) <==> p.0 in sources && p.1 in targets
    decreases |sources|
  {
    if sources != [] {
      var n := |sources| - 1;
      PairsSpec(sources[..n], targets);
      assert (n + 1) * |targets| == n * |targets| + |targets|;
      assert sources == sources[..n] + [sources[n]];
      forall p ensures p in Row(sources[n], targets) <==> p.0 == sources[n] && p.1 in targets {
        if p.0 == sources[n] && p.1 in targets {
          var j :| 0 <= j < |targets| && targets[j] == p.1;
          assert Row(sources[n], targets)[j] == p;
        }
      }
    }
  }

  /** The column lineage of one calc statement. */
  function TransformMappings(t: CalcTransform, ds: string): seq<LineageMapping> {
    var filter := FixContextToFilter(t.fixContext);
    match t.operation
    case FormulaOp => ScriptFormulaMappings(t, ds, filter)
    case DataCopy =>
      [LineageMapping(ds, t.sourceRegion.GetOr(""), ds, t.targetRegion.GetOr(""), Some("datacopy"),
        Some(t.rawStatement), 100, None, filter)]
    case Aggregation => DimensionMappings(t, ds, filter)
    case CalcDim => DimensionMappings(t, ds, filter)
    case _ => []
  }

  /** A mapping per source and target of a formula statement. */
  function ScriptFormulaMappings(t: CalcTransform, ds: string, filter: Option<string>): seq<LineageMapping> {
    var pairs := Pairs(t.sources, t.targets);
    seq(|pairs|, k requires 0 <= k < |pairs| =>
      LineageMapping(ds, pairs[k].0, ds, pairs[k].1, Some("calc_script_formula"), t.formula, 100, None, filter))
  }

  /** The source and target fields of a list of mappings, in order. */
  function Ends(ms: seq<LineageMapping>): (r: seq<(string, string)>)
    ensures |r| == |ms|
  {
    seq(|ms|, k requires 0 <= k < |ms| => (ms[k].sourceField, ms[k].targetField))
  }

  /** `dim.*` into itself for every target dimension. */
  function DimensionMappings(t: CalcTransform, ds: string, filter: Option<string>): seq<LineageMapping> {
    seq(|t.targets|, j requires 0 <= j < |t.targets| =>
      LineageMapping(ds, t.targets[j] + ".*", ds, t.targets[j] + ".*", Some(t.operation.Value()), None, 100,
        Some("CONSOLIDATE"), filter))
  }

  /** How many mappings a statement gives: sources times targets for a
      formula, one for a DATACOPY, one per dimension for AGG and CALC DIM,
      none for anything else. */
  function MappingCount(t: CalcTransform): nat {
    if t.operation == FormulaOp then |t.sources| * |t.targets|
    else if t.operation == DataCopy then 1
    else if t.operation == Aggregation || t.operation == CalcDim then |t.targets|
    else 0
  }

  /** Every mapping of a statement carries the filter of its FIX scope, and
      there are as many as `MappingCount` says: a formula links each of its
      sources to each of its targets, source by source, and a
      dimension-wide statement maps each `dim.*` into itself. */
  lemma TransformMappingsSpec(t: CalcTransform, ds: string)
    ensures |TransformMappings(t, ds)| == MappingCount(t)
    ensures forall x :: x in TransformMappings(t, ds) ==>
      x.filter == FixContextToFilter(t.fixContext) && x.sourceDataset == ds && x.targetDataset == ds
    ensures t.operation == FormulaOp ==> Ends(TransformMappings(t, ds)) == Pairs(t.sources, t.targets)
    ensures t.operation == Aggregation || t.operation == CalcDim ==>
      forall x :: x in TransformMappings(t, ds) ==>
        x.sourceField == x.targetField && EndsWith(x.sourceField, ".*") && x.aggregation == Some("CONSOLIDATE")
  {
    PairsSpec(t.sources, t.targets);
  }

  /** The text shown for a line number, as Python formats an optional
      integer. */
  function LineLabel(n: Option<nat>): string {
    match n
    case None => "None"
    case Some(v) => NatToString(v)
  }

  /** The logic of a statement: its formula when non-empty, else its text. */
  function Logic(t: CalcTransform): string {
    match t.formula
    case Some(f) => if f != "" then f else t.rawStatement
    case None => t.rawStatement
  }

  /** A missing line and line 0 are labelled differently, "None" and "0",
      though both fall back on the random suffix in the identifier. */
  lemma MissingAndZeroLines(script: string, random: string)
    ensures LineLabel(None) != LineLabel(Some(0))
    ensures OperationId(script, Some(0), random) == OperationId(script, None, random)
  {
    assert LineLabel(Some(0)) == [DigitChar(0)];
  }

  /** A line number Python treats as true: known and not 0. */
  predicate KnownLine(n: Option<nat>) {
    n.Some? && n.value != 0
  }

  /** The operation identifier: the script name and the line number, or a
      random suffix when the line is unknown or 0. */
  function OperationId(script: string, n: Option<nat>, random: string): string {
    script + "_" + if KnownLine(n) then NatToString(n.value) else random
  }

  /** The step of one calc statement; a formula step lists its
      source-target pairs as inputs and its targets as outputs. */
  function Operation(script: CalcScript, t: CalcTransform, ds: string, random: string): TransformOperation {
    var n := t.lineNumber;
    var pairs := Pairs(t.sources, t.targets);
    var isFormula := t.operation == FormulaOp;
    TransformOperation(
      OperationId(script.name, n, random),
      t.operation.Value(),
      t.operation.Value() + "@L" + LineLabel(n),
      if isFormula then seq(|pairs|, k requires 0 <= k < |pairs| =>
        LineageMapping(ds, pairs[k].0, ds, pairs[k].1, None, None, 100, None, None)) else [],
      if isFormula then t.targets else [],
      Logic(t),
      t.fixContext,
      if KnownLine(n) then Some((n.value, n.value)) else None)
  }

  /** `_calc_script_to_job`: one step per statement, in order, and the
      statements' mappings one after the other; `random(i)` is the random
      suffix drawn for statement `i` when its line is unknown. */
  function CalcScriptToJob(script: CalcScript, ds: string, random: nat -> string): (job: LineageJob)
    ensures |job.operations| == |script.transforms|
    ensures forall i :: 0 <= i < |script.transforms| ==>
      job.operations[i].operationType == script.transforms[i].operation.Value() &&
      job.operations[i].fixContext == script.transforms[i].fixContext
    ensures job.inputs == [ds] && job.outputs == [ds]
  {
    var ts := script.transforms;
    var ops := seq(|ts|, i requires 0 <= i < |ts| => Operation(script, ts[i], ds, random(i)));
    assert forall i :: 0 <= i < |ts| ==> ops[i] == Operation(script, ts[i], ds, random(i));
    LineageJob(
      script.application + "." + script.cube + "." + script.name,
      "essbase_calculation",
      [ds],
      [ds],
      Flatten(seq(|ts|, i requires 0 <= i < |ts| => TransformMappings(ts[i], ds))),
      ops,
      [("script_name", script.name), ("application", script.application), ("cube", script.cube),
       ("variable_count", NatToString(|script.variables|)), ("transform_count", NatToString(|ts|))])
  }

  /** The job's lineage is the statements' mappings, statement by statement. */
  lemma CalcScriptLineage(script: CalcScript, ds: string, random: nat -> string, x: LineageMapping)
    ensures x in CalcScriptToJob(script, ds, random).lineage <==>
      exists i :: 0 <= i < |script.transforms| && x in TransformMappings(script.transforms[i], ds)
  {
    var ts := script.transforms;
    var ss := seq(|ts|, i requires 0 <= i < |ts| => TransformMappings(ts[i], ds));
    FlattenIn(ss, x);
    if exists i :: 0 <= i < |ts| && x in TransformMappings(ts[i], ds) {
      var i :| 0 <= i < |ts| && x in TransformMappings(ts[i], ds);
      assert ss[i] in ss;
    }
  }

  /** Two known, different lines give different identifiers. */
  lemma OperationIdsDiffer(script: string, a: Option<nat>, b: Option<nat>, ra: string, rb: string)
    requires KnownLine(a) && KnownLine(b) && a != b
    ensures OperationId(script, a, ra) != OperationId(script, b, rb)
  {
    var prefix := script + "_";
    if OperationId(script, a, ra) == OperationId(script, b, rb) {
      assert OperationId(script, a, ra) == prefix + NatToString(a.value);
      assert OperationId(script, b, rb) == prefix + NatToString(b.value);
      assert NatToString(a.value) == (prefix + NatToString(a.value))[|prefix|..];
      assert NatToString(b.value) == (prefix + NatToString(b.value))[|prefix|..];
      NatToStringInjective(a.value, b.value);
    }
  }

  /** When the statements carry known line numbers in increasing order,
      no two steps share an identifier, whatever the random suffixes. */
  lemma OperationIdsDistinct(script: CalcScript, ds: string, random: nat -> string)
    requires LineOrdered(script.transforms)
    requires forall i :: 0 <= i < |script.transforms| ==> KnownLine(script.transforms[i].lineNumber)
    ensures var ops := CalcScriptToJob(script, ds, random).operations;
      forall i, j :: 0 <= i < j < |ops| ==> ops[i].operationId != ops[j].operationId
  {
    var ts := script.transforms;
    forall i, j | 0 <= i < j < |ts|
      ensures Operation(script, ts[i], ds, random(i)).operationId != Operation(script, ts[j], ds, random(j)).operationId
    {
      OperationIdsDiffer(script.name, ts[i].lineNumber, ts[j].lineNumber, random(i), random(j));
    }
  }

  /** The statements the parser reads from a script's text always meet
      that condition, so a parsed script's steps have distinct identifiers. */
  lemma ParsedScriptOperationIds(script: CalcScript, ds: string, random: nat -> string)
    requires script.transforms == ParseScriptBody(script.content).0
    ensures var ops := CalcScriptToJob(script, ds, random).operations;
      forall i, j :: 0 <= i < j < |ops| ==> ops[i].operationId != ops[j].operationId
  {
    ScriptLineNumbers(script.content);
    var ts := script.transforms;
    forall i | 0 <= i < |ts| ensures KnownLine(ts[i].lineNumber) {
      assert ts[i] in ParseScriptBody(script.content).0;
    }
    OperationIdsDistinct(script, ds, random);
  }

  // ----- load rules as jobs -----

  /** The `dataSource` object of a load rule as the server returns it; a
      missing key is `None`. */
  datatype DataSourceInfo = DataSourceInfo(name: Option<string>, sourceType: Option<string>, connection: Option<string>)

  /** One entry of `fieldMappings`. */
  datatype FieldMappingInfo = FieldMappingInfo(
    fieldNumber: Option<int>,
    dimension: Option<string>,
    sourceField: Option<string>,
    transformation: Option<string>)

  datatype LoadRuleInfo = LoadRuleInfo(
    name: Option<string>,
    dataSource: Option<DataSourceInfo>,
    fieldMappings: Option<seq<FieldMappingInfo>>,
    description: Option<string>)

  /** The source type, "file" unless the rule says otherwise. */
  function LoadSourceType(rule: LoadRuleInfo): string {
    match rule.dataSource
    case Some(d) => d.sourceType.GetOr("file")
    case None => "file"
  }

  /** The source dataset: `sql://connection` for an SQL source, else the
      source's name, with "unknown" and "external_source" as defaults. */
  function LoadSourceDataset(rule: LoadRuleInfo): (r: string)
    ensures LoadSourceType(rule) == "sql" ==> StartsWith(r, "sql://")
    ensures rule.dataSource.None? ==> r == "external_source"
  {
    var d := rule.dataSource.GetOr(DataSourceInfo(None, None, None));
    if LoadSourceType(rule) == "sql" then "sql://" + d.connection.GetOr("unknown")
    else d.name.GetOr("external_source")
  }

  /** The source field of a mapping: as given, else `field_<number>`. */
  function SourceFieldOf(m: FieldMappingInfo): string {
    m.sourceField.GetOr("field_" + IntToString(m.fieldNumber.GetOr(0)))
  }

  /** `_load_rule_to_job`: one mapping per field mapping, in order, from the
      source dataset into the cube's dimension. */
  function LoadRuleToJob(rule: LoadRuleInfo, app: string, cube: string, ruleType: string): (job: LineageJob)
    ensures var fms := rule.fieldMappings.GetOr([]);
      |job.lineage| == |fms| &&
      forall i :: 0 <= i < |fms| ==>
        job.lineage[i].sourceDataset == LoadSourceDataset(rule) &&
        job.lineage[i].sourceField == SourceFieldOf(fms[i]) &&
        job.lineage[i].targetDataset == DatasetName(app, cube) &&
        job.lineage[i].targetField == fms[i].dimension.GetOr("") &&
        job.lineage[i].expression == fms[i].transformation
    ensures job.inputs == [LoadSourceDataset(rule)] && job.outputs == [DatasetName(app, cube)]
  {
    var fms := rule.fieldMappings.GetOr([]);
    var source := LoadSourceDataset(rule);
    var target := DatasetName(app, cube);
    var ruleName := rule.name.GetOr("unknown");
    LineageJob(
      app + "." + cube + "." + ruleName,
      "essbase_" + ruleType + "_load",
      [source],
      [target],
      seq(|fms|, i requires 0 <= i < |fms| =>
        LineageMapping(source, SourceFieldOf(fms[i]), target, fms[i].dimension.GetOr(""),
          Some("load_rule_" + ruleType), fms[i].transformation, 100, None, None)),
      [],
      [("rule_name", ruleName), ("rule_type", ruleType), ("source_type", LoadSourceType(rule)),
       ("application", app), ("cube", cube)])
  }

  /** Without a source field the mapping reads `field_<n>`, `n` defaulting
      to 0; an SQL source is named after its connection, a missing one
      reading "unknown". */
  lemma LoadRuleDefaults(rule: LoadRuleInfo, m: FieldMappingInfo)
    ensures m.sourceField.None? && m.fieldNumber.None? ==> SourceFieldOf(m) == "field_0"
    ensures m.sourceField.None? ==> StartsWith(SourceFieldOf(m), "field_")
    ensures rule.dataSource.Some? && rule.dataSource.value.sourceType == Some("sql") ==>
      LoadSourceDataset(rule) == "sql://" + rule.dataSource.value.connection.GetOr("unknown")
    ensures rule.dataSource.Some? && rule.dataSource.value.sourceType != Some("sql") ==>
      LoadSourceDataset(rule) == rule.dataSource.value.name.GetOr("external_source")
  {
  }
}
