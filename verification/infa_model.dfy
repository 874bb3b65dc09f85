/** The objects of an Informatica PowerCenter export as the lineage engine
    uses them: transformation types, fields, connectors, instances,
    mappings, source and target definitions, and the column lineage edges
    and transformation steps the engine produces. */
module InfaModel {
  import opened Basics
  import opened Text
  import opened OrderedMap

  /** The transformation kinds, each with its name in the export. */
  datatype TransformationType =
    | SourceDefinition | SourceQualifier | TargetDefinition | Expression | Filter
    | Aggregator | Joiner | Lookup | Router | Sorter | SequenceGenerator | Normalizer
    | Rank | Union | UpdateStrategy | StoredProcedure | CustomTransformation | Unknown
  {
    function Value(): string {
      match this
      case SourceDefinition => "Source Definition"
      case SourceQualifier => "Source Qualifier"
      case TargetDefinition => "Target Definition"
      case Expression => "Expression"
      case Filter => "Filter"
      case Aggregator => "Aggregator"
      case Joiner => "Joiner"
      case Lookup => "Lookup Procedure"
      case Router => "Router"
      case Sorter => "Sorter"
      case SequenceGenerator => "Sequence Generator"
      case Normalizer => "Normalizer"
      case Rank => "Rank"
      case Union => "Union"
      case UpdateStrategy => "Update Strategy"
      case StoredProcedure => "Stored Procedure"
      case CustomTransformation => "Custom Transformation"
      case Unknown => "Unknown"
    }
  }

  /** The kinds in declaration order, the order in which names are tried. */
  const AllTypes: seq<TransformationType> := [
    SourceDefinition, SourceQualifier, TargetDefinition, Expression, Filter,
    Aggregator, Joiner, Lookup, Router, Sorter, SequenceGenerator, Normalizer,
    Rank, Union, UpdateStrategy, StoredProcedure, CustomTransformation, Unknown]

  function FirstNamed(kinds: seq<TransformationType>, v: string): (t: TransformationType)
    ensures t == Unknown || Lower(t.Value()) == Lower(v)
  {
    if kinds == [] then Unknown
    else if Lower(kinds[0].Value()) == Lower(v) then kinds[0]
    else FirstNamed(kinds[1..], v)
  }

  /** The kind whose name equals `v` ignoring case, `Unknown` when none does. */
  function TypeFromString(v: string): (t: TransformationType)
    ensures t == Unknown || Lower(t.Value()) == Lower(v)
    ensures t == Unknown ==> forall k :: k != Unknown ==> Lower(k.Value()) != Lower(v)
  {
    NoKindNamed(v);
    FirstNamed(AllTypes, v)
  }

  /** When the search ends in `Unknown`, no other kind carries the name. */
  lemma NoKindNamed(v: string)
    ensures FirstNamed(AllTypes, v) == Unknown ==> forall k :: k != Unknown ==> Lower(k.Value()) != Lower(v)
  {
    forall k | k != Unknown && Lower(k.Value()) == Lower(v)
      ensures FirstNamed(AllTypes, v) == k
    {
      NamesDistinctFrom(k);
      FirstNamedHits(AllTypes, v, k);
    }
  }

  /** A field of a source, target or transformation; only the expression
      matters to lineage. */
  datatype FieldInfo = FieldInfo(name: string, expression: Option<string>)

  /** A CONNECTOR: data flows from `(fromInstance, fromField)` to `(toInstance, toField)`. */
  datatype Connector = Connector(fromInstance: string, fromField: string, toInstance: string, toField: string)

  type Port = (string, string)

  datatype TransformationInfo = TransformationInfo(
    name: string,
    kind: TransformationType,
    fields: OMap<string, FieldInfo>,
    sqlQuery: Option<string>,
    procName: Option<string>,
    procSchema: Option<string>)

  /** A SOURCE or TARGET definition. */
  datatype TableDef = TableDef(name: string, owner: Option<string>, fields: OMap<string, FieldInfo>)

  datatype InstanceInfo = InstanceInfo(name: string, transformationName: string, kind: TransformationType)

  datatype Mapping = Mapping(
    name: string,
    instances: OMap<string, InstanceInfo>,
    connectors: seq<Connector>,
    transformations: OMap<string, TransformationInfo>)

  datatype Folder = Folder(
    sources: OMap<string, TableDef>,
    targets: OMap<string, TableDef>,
    transformations: OMap<string, TransformationInfo>)

  /** A column-to-column lineage edge; confidence is in hundredths (100 = 1.0). */
  datatype Edge = Edge(
    sourceDataset: string,
    sourceColumn: string,
    targetDataset: string,
    targetColumn: string,
    kind: TransformationType,
    expression: Option<string>,
    confidence: nat,
    stepOrder: int)

  /** One step of a transformation chain traced back from a target field. */
  datatype Step = Step(
    stepOrder: nat,
    instanceName: string,
    kind: TransformationType,
    inputs: seq<Port>,
    outputs: seq<Port>,
    expression: Option<string>)

  /** `schema.name` when the schema is non-empty, else `name`. */
  function QualifiedName(schema: string, name: string): string {
    if schema != "" then schema + "." + name else name
  }

  /** The owner of a table, `""` when unset. */
  function OwnerOf(t: TableDef): string {
    if Truthy(t.owner) then t.owner.value else ""
  }

  /** `owner.name` when the owner is set, else `name`. */
  function DatasetName(t: TableDef): string {
    QualifiedName(OwnerOf(t), t.name)
  }

  /** The key under which a trace remembers a visited field. */
  function VisitKey(instance: string, field: string): string {
    instance + "." + field
  }

  /** The transformation behind an instance: the mapping's own first, then
      the folder's reusable ones. */
  function GetTransformation(m: Mapping, f: Folder, inst: InstanceInfo): (r: Option<TransformationInfo>)
    ensures r.None? <==> inst.transformationName !in Keys(m.transformations) && inst.transformationName !in Keys(f.transformations)
  {
    match Get(m.transformations, inst.transformationName)
    case Some(t) => Some(t)
    case None => Get(f.transformations, inst.transformationName)
  }

  /** Every kind's own name maps back to it, whatever its case. */
  lemma TypeFromStringRoundTrip(t: TransformationType)
    ensures TypeFromString(t.Value()) == t
    ensures TypeFromString(Upper(t.Value())) == t
  {
    NamesDistinctFrom(t);
    FirstNamedHits(AllTypes, t.Value(), t);
    LowerUpper(t.Value());
    FirstNamedHits(AllTypes, Upper(t.Value()), t);
  }

  /** No other kind's name equals this one's, ignoring case. */
  lemma NamesDistinctFrom(t: TransformationType)
    ensures t in AllTypes
    ensures forall u :: u in AllTypes && u != t ==> Lower(u.Value()) != Lower(t.Value())
  {
    forall u | u in AllTypes && u != t
      ensures Lower(u.Value()) != Lower(t.Value())
    {
      NameSignatureDistinct(u, t);
    }
  }

  /** Length and first two letters, ignoring case, tell the names apart. */
  function NameSignature(t: TransformationType): (nat, char, char) {
    var v := t.Value();
    (|v|, LowerChar(v[0]), LowerChar(v[1]))
  }

  /** The kind a signature belongs to. */
  function OfSignature(sig: (nat, char, char)): TransformationType {
    match sig
    case (17, 's', _) => SourceDefinition
    case (16, 's', 'o') => SourceQualifier
    case (17, 't', _) => TargetDefinition
    case (10, 'e', _) => Expression
    case (6, 'f', _) => Filter
    case (10, 'a', _) => Aggregator
    case (6, 'j', _) => Joiner
    case (16, 'l', _) => Lookup
    case (6, 'r', _) => Router
    case (6, 's', _) => Sorter
    case (18, _, _) => SequenceGenerator
    case (10, 'n', _) => Normalizer
    case (4, _, _) => Rank
    case (5, _, _) => Union
    case (15, _, _) => UpdateStrategy
    case (16, 's', _) => StoredProcedure
    case (21, _, _) => CustomTransformation
    case _ => Unknown
  }

  /** The signature determines the kind. */
  lemma OfNameSignature(t: TransformationType)
    ensures OfSignature(NameSignature(t)) == t
  {
    match t
    case SourceDefinition =>
    case SourceQualifier =>
    case TargetDefinition =>
    case Expression =>
    case Filter =>
    case Aggregator =>
    case Joiner =>
    case Lookup =>
    case Router =>
    case Sorter =>
    case SequenceGenerator =>
    case Normalizer =>
    case Rank =>
    case Union =>
    case UpdateStrategy =>
    case StoredProcedure =>
    case CustomTransformation =>
    case Unknown =>
  }

  lemma NameSignatureDistinct(u: TransformationType, t: TransformationType)
    requires u != t
    ensures Lower(u.Value()) != Lower(t.Value())
  {
    OfNameSignature(u);
    OfNameSignature(t);
    SameLowerSameSignature(u, t);
  }

  /** Names equal ignoring case have equal signatures. */
  lemma SameLowerSameSignature(u: TransformationType, t: TransformationType)
    ensures Lower(u.Value()) == Lower(t.Value()) ==> NameSignature(u) == NameSignature(t)
  {
    var a, b := u.Value(), t.Value();
    assert |a| >= 2 && |b| >= 2;
    if Lower(a) == Lower(b) {
      assert LowerChar(a[0]) == Lower(a)[0] && LowerChar(b[0]) == Lower(b)[0];
      assert LowerChar(a[1]) == Lower(a)[1] && LowerChar(b[1]) == Lower(b)[1];
    }
  }

  lemma FirstNamedHits(kinds: seq<TransformationType>, v: string, t: TransformationType)
    requires t in kinds && Lower(v) == Lower(t.Value())
    requires forall u :: u in kinds && u != t ==> Lower(u.Value()) != Lower(t.Value())
    ensures FirstNamed(kinds, v) == t
  {
    if kinds[0] != t {
      FirstNamedHits(kinds[1..], v, t);
    }
  }

  /** Splitting a qualified name at its last dot gives back schema and
      name when the name itself has no dot. */
  lemma QualifiedNameSplits(schema: string, name: string)
    requires '.' !in name
    ensures schema != "" ==> SplitLast(QualifiedName(schema, name), '.') == Some((schema, name))
    ensures schema == "" ==> QualifiedName(schema, name) == name
  {
    if schema != "" {
      var s := QualifiedName(schema, name);
      var r := SplitLast(s, '.');
      assert s == schema + ['.'] + name;
      assert r.Some?;
      SplitLastUnique(s, schema, name, r.value.0, r.value.1);
    }
  }

  /** A dataset name splits back into owner and table name. */
  lemma DatasetNameSplits(t: TableDef)
    requires '.' !in t.name
    ensures Truthy(t.owner) ==> SplitLast(DatasetName(t), '.') == Some((t.owner.value, t.name))
    ensures !Truthy(t.owner) ==> DatasetName(t) == t.name
  {
    QualifiedNameSplits(OwnerOf(t), t.name);
  }

  lemma SplitLastUnique(s: string, a: string, b: string, c: string, d: string)
    requires s == a + ['.'] + b && '.' !in b
    requires s == c + ['.'] + d && '.' !in d
    ensures a == c && b == d
  {
    var i := |s| - |b| - 1;
    var j := |s| - |d| - 1;
    assert s[i] == '.' && s[j] == '.';
    assert forall k :: i < k < |s| ==> s[k] == b[k - i - 1];
    assert forall k :: j < k < |s| ==> s[k] == d[k - j - 1];
    assert i == j;
    assert b == s[|s| - |b|..] && d == s[|s| - |d|..];
    assert a == s[..|a|] && c == s[..|c|];
  }
}
