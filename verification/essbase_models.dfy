/** The Essbase outline as the connector records it — cubes, dimensions,
    members — together with the calc-script and load-rule records that the
    lineage extractor consumes, and the member and dimension predicates the
    extractors ask of them. */
module EssbaseModels {
  import opened Basics
  import opened Text
  import opened OrderedMap

  datatype DimensionType = Dense | Sparse
  {
    /** The enumeration's string value. */
    function Value(): string {
      match this
      case Dense => "dense"
      case Sparse => "sparse"
    }
  }

  datatype DimensionCategory = Accounts | Time | Country | Attribute | Standard
  {
    function Value(): string {
      match this
      case Accounts => "accounts"
      case Time => "time"
      case Country => "country"
      case Attribute => "attribute"
      case Standard => "standard"
    }
  }

  /** How a member rolls up into its parent; the enumeration's value is the
      operator symbol of the outline. */
  datatype MemberConsolidation =
    | Addition | Subtraction | Multiplication | Division | Percent | Ignore | Never
  {
    function Symbol(): string {
      match this
      case Addition => "+"
      case Subtraction => "-"
      case Multiplication => "*"
      case Division => "/"
      case Percent => "%"
      case Ignore => "~"
      case Never => "^"
    }
  }

  datatype MemberStorage =
    | StoreData | DynamicCalc | DynamicCalcAndStore | NeverShare | LabelOnly | SharedMember
  {
    function Value(): string {
      match this
      case StoreData => "store"
      case DynamicCalc => "dynamic_calc"
      case DynamicCalcAndStore => "dynamic_calc_store"
      case NeverShare => "never_share"
      case LabelOnly => "label_only"
      case SharedMember => "shared"
    }
  }

  datatype CalcOperation =
    | Aggregation | Allocation | FormulaOp | Copy | Clear | DataCopy | FixOp | CalcDim
    | MemberFormula | Custom
  {
    /** The enumeration's string value. */
    function Value(): string {
      match this
      case Aggregation => "aggregation"
      case Allocation => "allocation"
      case FormulaOp => "formula"
      case Copy => "copy"
      case Clear => "clear"
      case DataCopy => "datacopy"
      case FixOp => "fix"
      case CalcDim => "calc_dim"
      case MemberFormula => "member_formula"
      case Custom => "custom"
    }
  }

  datatype Member = Member(
    name: string,
    alias: Option<string>,
    parent: Option<string>,
    children: seq<string>,
    level: int,
    generation: int,
    consolidation: MemberConsolidation,
    storage: MemberStorage,
    formula: Option<string>,
    uda: seq<string>,
    comment: Option<string>)
  {
    /** The member carries a formula with some non-blank text. */
    predicate HasFormula() {
      formula.Some? && |Strip(formula.value)| > 0
    }

    /** The member is computed at retrieval time. */
    predicate IsCalculated() {
      storage == DynamicCalc || storage == DynamicCalcAndStore
    }
  }

  /** A member as the outline readers first create it: no links, level and
      generation 0, added to its parent, stored. */
  function NewMember(name: string): Member {
    Member(name, None, None, [], 0, 0, Addition, StoreData, None, [], None)
  }

  datatype Dimension = Dimension(
    name: string,
    dimensionType: DimensionType,
    category: DimensionCategory,
    members: seq<Member>)

  datatype Cube = Cube(name: string, application: string, dimensions: seq<Dimension>)

  /** The active FIX scope of a calc statement: dimension name to members,
      in insertion order. */
  type FixContext = OMap<string, seq<string>>

  datatype VariableScope = Global | Local

  datatype CalcVariable = CalcVariable(name: string, value: Option<string>, scope: VariableScope)

  /** One calculation statement recognised in a calc script; its line
      number is `None` until the parser assigns one. */
  datatype CalcTransform = CalcTransform(
    operation: CalcOperation,
    targets: seq<string>,
    sources: seq<string>,
    formula: Option<string>,
    fixContext: Option<FixContext>,
    lineNumber: Option<nat>,
    rawStatement: string,
    sourceRegion: Option<string>,
    targetRegion: Option<string>)

  /** A calc script with what the parser found in it. */
  datatype CalcScript = CalcScript(
    name: string,
    cube: string,
    application: string,
    content: string,
    variables: seq<CalcVariable>,
    transforms: seq<CalcTransform>,
    description: Option<string>)

  datatype LoadRuleFieldMapping = LoadRuleFieldMapping(
    fieldNumber: int,
    fieldName: Option<string>,
    targetDimension: string,
    targetMember: Option<string>)

  datatype LoadRule = LoadRule(
    name: string,
    cube: string,
    application: string,
    sourceType: string,
    sqlConnection: Option<string>,
    fieldMappings: seq<LoadRuleFieldMapping>)

  /** `has_formula` holds exactly when some character of the formula is not
      whitespace. */
  lemma HasFormulaSpec(m: Member)
    ensures m.HasFormula() <==>
      m.formula.Some? && exists k :: 0 <= k < |m.formula.value| && !IsSpace(m.formula.value[k])
  {
    if m.formula.Some? {
      BlankIffAllSpace(m.formula.value);
    }
  }

  /** The enumeration lookup `MemberConsolidation(value)`: the member whose
      symbol is `value`, if any. */
  function ConsolidationOf(value: string): (r: Option<MemberConsolidation>)
    ensures r.Some? ==> r.value.Symbol() == value
  {
    if value == "+" then Some(Addition)
    else if value == "-" then Some(Subtraction)
    else if value == "*" then Some(Multiplication)
    else if value == "/" then Some(Division)
    else if value == "%" then Some(Percent)
    else if value == "~" then Some(Ignore)
    else if value == "^" then Some(Never)
    else None
  }

  /** The seven operators are told apart by their symbols, and those
      symbols are the only values the lookup accepts. */
  lemma ConsolidationSymbols(c: MemberConsolidation, value: string)
    ensures ConsolidationOf(c.Symbol()) == Some(c)
    ensures ConsolidationOf(value).Some? <==> value in {"+", "-", "*", "/", "%", "~", "^"}
  {
  }

  /** The first member of the dimension with exactly this name. */
  function GetMember(d: Dimension, name: string): (r: Option<Member>)
    ensures r.None? <==> forall i :: 0 <= i < |d.members| ==> d.members[i].name != name
    ensures r.Some? ==> exists i :: (0 <= i < |d.members| && d.members[i] == r.value &&
      r.value.name == name && forall j :: 0 <= j < i ==> d.members[j].name != name)
  {
    FindMember(d.members, name)
  }

  function FindMember(members: seq<Member>, name: string): (r: Option<Member>)
    ensures r.None? <==> forall i :: 0 <= i < |members| ==> members[i].name != name
    ensures r.Some? ==> exists i :: (0 <= i < |members| && members[i] == r.value &&
      r.value.name == name && forall j :: 0 <= j < i ==> members[j].name != name)
  {
    if members == [] then None
    else if members[0].name == name then Some(members[0])
    else
      var r := FindMember(members[1..], name);
      assert r.Some? ==> exists i :: (0 <= i < |members| && members[i] == r.value &&
        r.value.name == name && forall j :: 0 <= j < i ==> members[j].name != name) by {
        if r.Some? {
          var i :| 0 <= i < |members[1..]| && members[1..][i] == r.value &&
            r.value.name == name && forall j :: 0 <= j < i ==> members[1..][j].name != name;
          assert members[i + 1] == r.value;
        }
      }
      r
  }

  /** `members[j]` is the last member carrying its name: the one a
      name-keyed dictionary built in member order keeps. */
  predicate LastNamed(members: seq<Member>, j: int) {
    0 <= j < |members| && forall k :: j < k < |members| ==> members[k].name != members[j].name
  }

  /** Two last members of one name are the same member. */
  lemma LastNamedUnique(members: seq<Member>, i: int, j: int)
    requires LastNamed(members, i) && LastNamed(members, j) && members[i].name == members[j].name
    ensures i == j
  {
  }

  predicate IsLeaf(m: Member) { m.children == [] }

  predicate HasChildren(m: Member) { m.children != [] }

  predicate IsCalculatedOrFormula(m: Member) { m.IsCalculated() || m.HasFormula() }

  predicate IsPlain(m: Member) { !m.IsCalculated() && !m.HasFormula() }

  function LeafMembers(d: Dimension): seq<Member> {
    Filter(d.members, IsLeaf)
  }

  function CalculatedMembers(d: Dimension): seq<Member> {
    Filter(d.members, IsCalculatedOrFormula)
  }

  predicate IsDense(d: Dimension) { d.dimensionType == Dense }

  predicate IsSparse(d: Dimension) { d.dimensionType == Sparse }

  function DenseDimensions(c: Cube): seq<Dimension> {
    Filter(c.dimensions, IsDense)
  }

  function SparseDimensions(c: Cube): seq<Dimension> {
    Filter(c.dimensions, IsSparse)
  }

  /** Leaf members are the childless ones, in outline order: together with
      the members that have children they interleave to the whole list. */
  lemma LeafMembersSpec(d: Dimension)
    ensures forall m :: m in LeafMembers(d) <==> m in d.members && m.children == []
    ensures Interleaves(d.members, LeafMembers(d), Filter(d.members, HasChildren))
  {
    FilterInterleaves(d.members, IsLeaf, HasChildren);
  }

  /** Calculated members are those that are dynamic or carry a formula, in
      outline order. */
  lemma CalculatedMembersSpec(d: Dimension)
    ensures forall m :: m in CalculatedMembers(d) <==>
      m in d.members && (m.storage == DynamicCalc || m.storage == DynamicCalcAndStore || m.HasFormula())
    ensures Interleaves(d.members, CalculatedMembers(d), Filter(d.members, IsPlain))
  {
    FilterInterleaves(d.members, IsCalculatedOrFormula, IsPlain);
  }

  /** The dense and the sparse dimensions partition the cube's dimensions,
      each list keeping the cube's order. */
  lemma DenseSparsePartition(c: Cube)
    ensures Interleaves(c.dimensions, DenseDimensions(c), SparseDimensions(c))
    ensures forall d :: d in DenseDimensions(c) <==> d in c.dimensions && d.dimensionType == Dense
    ensures forall d :: d in SparseDimensions(c) <==> d in c.dimensions && d.dimensionType == Sparse
  {
    FilterInterleaves(c.dimensions, IsDense, IsSparse);
  }
}
