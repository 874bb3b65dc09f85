/** The outline side of the Essbase connectors: turning the server's member
    records into members, linking parents to children, the string-to-enum
    mappers for the server's values, and the schema fields a cube is
    published with — the nested fields of the example connector and the
    flat field list of the DataHub source. */
module EssbaseSchema {
  import opened Basics
  import opened Text
  import opened EssbaseModels

  // ---------------------------------------------------------------------
  // Value mappers

  /** The storage type of a dimension: dense iff the value upper-cases to
      "DENSE"; anything else, missing included, is sparse. */
  function MapDimensionType(v: Option<string>): (r: DimensionType)
    ensures r == Dense <==> v.Some? && Upper(v.value) == "DENSE"
  {
    if v.Some? && v.value != "" && Upper(v.value) == "DENSE" then Dense else Sparse
  }

  /** The category dictionary, keyed by upper-case name. */
  function CategoryOf(key: string): Option<DimensionCategory> {
    if key == "ACCOUNTS" then Some(Accounts)
    else if key == "TIME" then Some(Time)
    else if key == "COUNTRY" then Some(Country)
    else if key == "ATTRIBUTE" then Some(Attribute)
    else None
  }

  /** The category of a dimension: the upper-cased value looked up in the
      dictionary, standard when it is missing or not a key. */
  function MapDimensionCategory(v: Option<string>): (r: DimensionCategory)
    ensures v.None? ==> r == Standard
    ensures r != Standard ==> v.Some? && Upper(v.value) == Upper(r.Value())
    ensures forall c :: c != Standard && v.Some? && Upper(v.value) == Upper(c.Value()) ==> r == c
  {
    UpperCategoryValues();
    var key := if v.Some? && v.value != "" then Upper(v.value) else "";
    match CategoryOf(key)
    case Some(c) => c
    case None => Standard
  }

  lemma UpperCategoryValues()
    ensures Upper(Accounts.Value()) == "ACCOUNTS" && Upper(Time.Value()) == "TIME"
    ensures Upper(Country.Value()) == "COUNTRY" && Upper(Attribute.Value()) == "ATTRIBUTE"
    ensures Upper(Standard.Value()) == "STANDARD"
  {
  }

  /** The consolidation of a member: an exact lookup of the operator symbol,
      addition when the value is missing or unknown. */
  function MapConsolidation(v: Option<string>): (r: MemberConsolidation)
    ensures v.Some? && v.value in {"+", "-", "*", "/", "%", "~", "^"} ==> r.Symbol() == v.value
    ensures v.None? || v.value !in {"+", "-", "*", "/", "%", "~", "^"} ==> r == Addition
  {
    if v.None? then Addition
    else
      ConsolidationSymbols(Addition, v.value);
      match ConsolidationOf(v.value)
      case Some(c) => c
      case None => Addition
  }

  /** The key under which the storage dictionary lists each storage kind.
      Only the dynamic-calc-and-store kind has a key that differs from its
      upper-cased enumeration value. */
  function StorageKey(s: MemberStorage): string {
    match s
    case StoreData => "STORE"
    case DynamicCalc => "DYNAMIC_CALC"
    case DynamicCalcAndStore => "DYNAMIC_CALC_AND_STORE"
    case NeverShare => "NEVER_SHARE"
    case LabelOnly => "LABEL_ONLY"
    case SharedMember => "SHARED"
  }

  /** The storage dictionary. */
  function StorageOf(key: string): Option<MemberStorage> {
    if key == "STORE" then Some(StoreData)
    else if key == "DYNAMIC_CALC" then Some(DynamicCalc)
    else if key == "DYNAMIC_CALC_AND_STORE" then Some(DynamicCalcAndStore)
    else if key == "NEVER_SHARE" then Some(NeverShare)
    else if key == "LABEL_ONLY" then Some(LabelOnly)
    else if key == "SHARED" then Some(SharedMember)
    else None
  }

  /** The storage of a member: stored for an empty or missing value,
      otherwise the upper-cased value looked up, stored when unknown. */
  function MapStorage(v: Option<string>): (r: MemberStorage)
    ensures v.None? || v.value == "" ==> r == StoreData
    ensures r != StoreData ==> v.Some? && Upper(v.value) == StorageKey(r)
    ensures forall s :: v.Some? && Upper(v.value) == StorageKey(s) ==> r == s
  {
    if v.None? || v.value == "" then StoreData
    else
      match StorageOf(Upper(v.value))
      case Some(s) => s
      case None => StoreData
  }

  /** The mappers read back the enumeration values they produce. */
  lemma MapperRoundTrips(t: DimensionType, c: DimensionCategory, k: MemberConsolidation)
    ensures MapDimensionType(Some(t.Value())) == t
    ensures MapDimensionCategory(Some(c.Value())) == c
    ensures MapConsolidation(Some(k.Symbol())) == k
  {
    assert Upper("dense") == "DENSE";
    UpperCategoryValues();
    ConsolidationSymbols(k, k.Symbol());
  }

  /** The storage mapper reads back every storage value but one: the value
      "dynamic_calc_store" is not a dictionary key and falls back to stored
      data. */
  lemma StorageRoundTrip(s: MemberStorage)
    ensures MapStorage(Some(s.Value())) == if s == DynamicCalcAndStore then StoreData else s
  {
    if s == DynamicCalcAndStore {
      StorageFallsBack();
    } else {
      StorageReadsBack(s);
    }
  }

  lemma StorageReadsBack(s: MemberStorage)
    requires s != DynamicCalcAndStore
    ensures MapStorage(Some(s.Value())) == s
  {
    match s
    case StoreData => assert Upper("store") == "STORE";
    case DynamicCalc => assert Upper("dynamic_calc") == "DYNAMIC_CALC";
    case NeverShare => assert Upper("never_share") == "NEVER_SHARE";
    case LabelOnly => assert Upper("label_only") == "LABEL_ONLY";
    case SharedMember => assert Upper("shared") == "SHARED";
  }

  lemma StorageFallsBack()
    ensures MapStorage(Some(DynamicCalcAndStore.Value())) == StoreData
  {
    assert Upper("dynamic_calc_store") == "DYNAMIC_CALC_STORE";
  }

  /** The case-insensitive mappers give equal answers for values that
      differ only in letter case. */
  lemma MappersIgnoreCase(a: string, b: string)
    requires EqualsIgnoreCase(a, b)
    ensures MapDimensionType(Some(a)) == MapDimensionType(Some(b))
    ensures MapDimensionCategory(Some(a)) == MapDimensionCategory(Some(b))
    ensures MapStorage(Some(a)) == MapStorage(Some(b))
  {
    assert |a| == |Upper(a)| == |Upper(b)| == |b|;
  }

  // ---------------------------------------------------------------------
  // Members from the server's records

  /** One member record as the outline API returns it; a missing key is
      `None`. */
  datatype MemberRecord = MemberRecord(
    name: Option<string>,
    alias: Option<string>,
    parentName: Option<string>,
    levelNumber: Option<int>,
    generationNumber: Option<int>,
    consolidation: Option<string>,
    dataStorage: Option<string>,
    formula: Option<string>,
    udas: Option<seq<string>>,
    comment: Option<string>)

  /** What the extractor is configured to record. */
  datatype IncludeFlags = IncludeFlags(aliases: bool, formulas: bool, udas: bool)

  /** A member from its record. The alias, formula and UDAs are kept only
      when their flags are set; the example connector's parser keeps the
      formula unconditionally, which is this function with the formula
      flag set. */
  function ParseMember(data: MemberRecord, flags: IncludeFlags): (m: Member)
    ensures m.children == []
    ensures m.alias.Some? ==> flags.aliases
    ensures m.formula.Some? ==> flags.formulas
    ensures m.uda != [] ==> flags.udas
    ensures flags.aliases ==> m.alias == data.alias
    ensures flags.formulas ==> m.formula == data.formula
    ensures flags.udas ==> m.uda == data.udas.GetOr([])
  {
    Member(data.name.GetOr(""),
      if flags.aliases then data.alias else None,
      data.parentName,
      [],
      data.levelNumber.GetOr(0),
      data.generationNumber.GetOr(0),
      MapConsolidation(data.consolidation),
      MapStorage(data.dataStorage),
      if flags.formulas then data.formula else None,
      if flags.udas then data.udas.GetOr([]) else [],
      data.comment)
  }

  /** How many members the capped extractor keeps from a stream of `n`
      records: it stops once the count reaches the cap, which it checks
      only after adding a member. */
  function KeptCount(n: nat, cap: int): (r: nat)
    ensures r <= n
  {
    if n == 0 then 0 else Min(n, Max(cap, 1))
  }

  /** Reads the member stream, parsing each record, and stops as soon as
      the number of members reaches `cap` (the check after each member
      becomes the loop's guard). */
  method CollectMembers(stream: seq<MemberRecord>, flags: IncludeFlags, cap: int) returns (members: seq<Member>)
    ensures |members| == KeptCount(|stream|, cap)
    ensures stream != [] ==> 1 <= |members| <= Max(cap, 1)
    ensures forall i :: 0 <= i < |members| ==> members[i] == ParseMember(stream[i], flags)
  {
    members := [];
    var i := 0;
    while i < |stream| && (i == 0 || i < cap)
      invariant 0 <= i <= |stream|
      invariant |members| == i
      invariant i <= KeptCount(|stream|, cap)
      invariant forall k :: 0 <= k < i ==> members[k] == ParseMember(stream[k], flags)
    {
      members := members + [ParseMember(stream[i], flags)];
      i := i + 1;
    }
  }

  // ---------------------------------------------------------------------
  // Parent-to-children links

  /** The names of the members, in order, whose parent is `p`. */
  function ChildNames(members: seq<Member>, p: string): (r: seq<string>)
    decreases |members|
  {
    if members == [] then []
    else
      var n := |members| - 1;
      ChildNames(members[..n], p) + (if members[n].parent == Some(p) then [members[n].name] else [])
  }

  ghost predicate ChildAt(members: seq<Member>, p: string, c: string, i: int) {
    0 <= i < |members| && members[i].parent == Some(p) && members[i].name == c
  }

  lemma {:induction false} ChildNamesSpec(members: seq<Member>, p: string)
    ensures forall c :: c in ChildNames(members, p) <==> exists i :: ChildAt(members, p, c, i)
    decreases |members|
  {
    if members != [] {
      var n := |members| - 1;
      ChildNamesSpec(members[..n], p);
      forall c | c in ChildNames(members, p)
        ensures exists i :: ChildAt(members, p, c, i)
      {
        if c in ChildNames(members[..n], p) {
          var i :| ChildAt(members[..n], p, c, i);
          assert ChildAt(members, p, c, i);
        } else {
          assert ChildAt(members, p, c, n);
        }
      }
      forall c, i | ChildAt(members, p, c, i)
        ensures c in ChildNames(members, p)
      {
        if i < n {
          assert ChildAt(members[..n], p, c, i);
        }
      }
    }
  }

  /** The index of the last member named `name`, or -1: the member a
      name-keyed dictionary built in member order holds. */
  function LastIndexNamed(members: seq<Member>, name: string): (k: int)
    ensures -1 <= k < |members|
    ensures k >= 0 ==> LastNamed(members, k) && members[k].name == name
    ensures k == -1 ==> forall j :: 0 <= j < |members| ==> members[j].name != name
    decreases |members|
  {
    if members == [] then -1
    else if members[|members| - 1].name == name then |members| - 1
    else
      var k := LastIndexNamed(members[..|members| - 1], name);
      assert k >= 0 ==> LastNamed(members, k);
      k
  }

  /** Member `i` adds its name to member `j`: `j` is the member the
      dictionary holds for a non-empty name, and that name is `i`'s
      parent. */
  predicate Feeds(members: seq<Member>, i: int, j: int)
    requires 0 <= i < |members|
  {
    LastNamed(members, j) && members[j].name != "" && members[i].parent == Some(members[j].name)
  }

  /** The children of member `j` once the first `i` members have been
      linked. */
  function ChildrenAfter(members: seq<Member>, i: int, j: int): seq<string>
    requires 0 <= i <= |members| && 0 <= j < |members|
  {
    if LastNamed(members, j) && members[j].name != "" then
      AddAll(members[j].children, ChildNames(members[..i], members[j].name))
    else members[j].children
  }

  /** The children of member `j` after linking: the member the dictionary
      holds for a non-empty name gains, once each and in member order, the
      names of the members that name it as parent; every other member
      keeps its children. */
  function LinkedChildren(members: seq<Member>, j: int): seq<string>
    requires 0 <= j < |members|
  {
    ChildrenAfter(members, |members|, j)
  }

  lemma LinkStep(members: seq<Member>, i: int, j: int)
    requires 0 <= i < |members| && 0 <= j < |members|
    ensures ChildrenAfter(members, i + 1, j) ==
      if Feeds(members, i, j) && members[i].name !in ChildrenAfter(members, i, j)
      then ChildrenAfter(members, i, j) + [members[i].name]
      else ChildrenAfter(members, i, j)
  {
    assert members[..i + 1][..i] == members[..i];
    if LastNamed(members, j) && members[j].name != "" {
      var p := members[j].name;
      assert ChildNames(members[..i + 1], p) ==
        ChildNames(members[..i], p) + (if members[i].parent == Some(p) then [members[i].name] else []);
      if members[i].parent == Some(p) {
        var s := ChildNames(members[..i], p) + [members[i].name];
        assert s[..|s| - 1] == ChildNames(members[..i], p);
      } else {
        assert ChildNames(members[..i + 1], p) == ChildNames(members[..i], p);
      }
    }
  }

  /** Member `i` feeds at most one member: the one the dictionary holds
      for its parent's name. */
  lemma FeedsOnly(members: seq<Member>, i: int, k: int)
    requires 0 <= i < |members|
    requires k == if members[i].parent.Some? && members[i].parent.value != "" then
      LastIndexNamed(members, members[i].parent.value) else -1
    ensures forall j :: 0 <= j < |members| ==> (Feeds(members, i, j) <==> j == k)
  {
    forall j | 0 <= j < |members| && Feeds(members, i, j)
      ensures j == k
    {
      LastNamedUnique(members, j, k);
    }
  }

  /** Links every member to its parent, in member order: a member whose
      parent names a kept member is appended to that member's children
      unless already listed there. */
  method LinkChildren(members: seq<Member>) returns (linked: seq<Member>)
    ensures |linked| == |members|
    ensures forall j :: 0 <= j < |members| ==>
      linked[j] == members[j].(children := LinkedChildren(members, j))
  {
    var kids := seq(|members|, j requires 0 <= j < |members| => members[j].children);
    var i := 0;
    while i < |members|
      invariant 0 <= i <= |members|
      invariant |kids| == |members|
      invariant forall j :: 0 <= j < |members| ==> kids[j] == ChildrenAfter(members, i, j)
    {
      var m := members[i];
      var k := -1;
      if m.parent.Some? && m.parent.value != "" {
        k := LastIndexNamed(members, m.parent.value);
      }
      FeedsOnly(members, i, k);
      if k >= 0 && m.name !in kids[k] {
        kids := kids[k := kids[k] + [m.name]];
      }
      forall j | 0 <= j < |members|
        ensures kids[j] == ChildrenAfter(members, i + 1, j)
      {
        LinkStep(members, i, j);
      }
      i := i + 1;
    }
    linked := seq(|members|, j requires 0 <= j < |members| => members[j].(children := kids[j]));
  }

  /** A freshly parsed member that the dictionary holds for its non-empty
      name ends up with each of its children once, in member order: exactly
      the names of the members whose parent it is. A parent name that no
      member carries links nothing. */
  lemma LinkedChildrenSpec(members: seq<Member>, j: int)
    requires LastNamed(members, j) && members[j].name != "" && members[j].children == []
    ensures Distinct(LinkedChildren(members, j))
    ensures forall c :: c in LinkedChildren(members, j) <==>
      exists i :: ChildAt(members, members[j].name, c, i)
    ensures FirstSeenOrder(LinkedChildren(members, j), ChildNames(members, members[j].name))
  {
    assert members[..|members|] == members;
    DedupSpec(ChildNames(members, members[j].name));
    ChildNamesSpec(members, members[j].name);
  }

  /** A member that is not the dictionary's entry for a non-empty name
      keeps the children it was parsed with. */
  lemma UnlinkedKeepChildren(members: seq<Member>, j: int)
    requires 0 <= j < |members|
    requires !LastNamed(members, j) || members[j].name == ""
    ensures LinkedChildren(members, j) == members[j].children
  {
  }

  /** After linking, the formula of a calculated member or one with a
      formula is replaced by the one its detail record carries, when the
      formula flag is set. `detail` stands for the per-member detail call:
      `None` when the call fails or its record has no "formula" key, and
      `Some(f)` for a record whose "formula" is `f`, which is `None` when the
      record holds null. */
  function RefreshFormula(m: Member, includeFormulas: bool, detail: string -> Option<Option<string>>): (r: Member)
    ensures r == m.(formula := r.formula)
    ensures r.formula != m.formula ==>
      includeFormulas && (m.HasFormula() || m.IsCalculated()) && Some(r.formula) == detail(m.name)
    ensures includeFormulas && (m.HasFormula() || m.IsCalculated()) && detail(m.name).Some? ==>
      r.formula == detail(m.name).value
    ensures !includeFormulas || (!m.HasFormula() && !m.IsCalculated()) || detail(m.name).None? ==> r == m
  {
    if includeFormulas && (m.HasFormula() || m.IsCalculated()) && detail(m.name).Some? then
      m.(formula := detail(m.name).value)
    else m
  }

  /** The members of one dimension: the capped stream parsed, linked to
      their parents, and their formulas refreshed. */
  method ExtractMembers(stream: seq<MemberRecord>, flags: IncludeFlags, cap: int,
                        detail: string -> Option<Option<string>>) returns (members: seq<Member>)
    ensures |members| == KeptCount(|stream|, cap)
    ensures forall j :: 0 <= j < |members| ==>
      members[j].name == stream[j].name.GetOr("") && members[j].parent == stream[j].parentName
    ensures forall j :: 0 <= j < |members| ==>
      members[j] == RefreshFormula(
        ParseMember(stream[j], flags).(children := LinkedChildren(Kept(stream, flags, cap), j)),
        flags.formulas, detail)
  {
    var collected := CollectMembers(stream, flags, cap);
    assert collected == Kept(stream, flags, cap);
    var linked := LinkChildren(collected);
    members := seq(|linked|, j requires 0 <= j < |linked| => RefreshFormula(linked[j], flags.formulas, detail));
  }

  /** The members the capped extractor keeps, as parsed. */
  function Kept(stream: seq<MemberRecord>, flags: IncludeFlags, cap: int): (r: seq<Member>)
    requires KeptCount(|stream|, cap) <= |stream|
  {
    seq(KeptCount(|stream|, cap), i requires 0 <= i < KeptCount(|stream|, cap) => ParseMember(stream[i], flags))
  }

  /** Record `i`, among the first `n`, names `p` as parent and `c` as its
      own name. */
  ghost predicate RecordChildAt(stream: seq<MemberRecord>, n: int, p: string, c: string, i: int) {
    0 <= i < n <= |stream| && stream[i].parentName == Some(p) && stream[i].name.GetOr("") == c
  }

  /** In the extracted members, a kept member that is the last of its
      non-empty name lists, once each, exactly the kept records that name
      it as parent. */
  lemma ExtractedChildren(stream: seq<MemberRecord>, flags: IncludeFlags, cap: int, j: int)
    requires 0 <= j < KeptCount(|stream|, cap)
    requires LastNamed(Kept(stream, flags, cap), j) && stream[j].name.GetOr("") != ""
    ensures Distinct(LinkedChildren(Kept(stream, flags, cap), j))
    ensures forall c :: c in LinkedChildren(Kept(stream, flags, cap), j) <==>
      exists i :: RecordChildAt(stream, KeptCount(|stream|, cap), stream[j].name.GetOr(""), c, i)
  {
    var kept := Kept(stream, flags, cap);
    var n := KeptCount(|stream|, cap);
    var p := stream[j].name.GetOr("");
    LinkedChildrenSpec(kept, j);
    assert forall c, i :: ChildAt(kept, p, c, i) <==> RecordChildAt(stream, n, p, c, i);
  }

  // ---------------------------------------------------------------------
  // Nested schema fields of the example connector

  datatype FieldType = DimensionField | MeasureField | DateField | MemberField | DoubleField

  /** A schema field; members of a dimension are nested in its field. */
  datatype SchemaField = SchemaField(
    name: string,
    fieldType: FieldType,
    description: Option<string>,
    fields: seq<SchemaField>,
    nativeType: Option<string>,
    tags: seq<string>)

  /** How many root members a dimension field nests at most. */
  const NestedMemberLimit := 100

  /** The description a member field carries: its comment unless that is
      empty or missing, else its alias. */
  function MemberDescription(m: Member): (r: Option<string>)
    ensures r == m.comment || r == m.alias
    ensures m.comment.Some? && m.comment.value != "" ==> r == m.comment
  {
    if m.comment.Some? && m.comment.value != "" then m.comment else m.alias
  }

  const MemberTagOrder: seq<string> := ["calculated", "formula", "shared"]

  function TagRank(t: string): int {
    if t == "calculated" then 0 else if t == "formula" then 1 else if t == "shared" then 2 else 3
  }

  /** The tags of a member field: "calculated", "formula" and "shared",
      each present exactly when the member is dynamic, has a formula, or
      is a shared member. */
  function MemberTags(m: Member): (tags: seq<string>)
    ensures "calculated" in tags <==> m.IsCalculated()
    ensures "formula" in tags <==> m.HasFormula()
    ensures "shared" in tags <==> m.storage == SharedMember
    ensures forall t :: t in tags ==> t in MemberTagOrder
  {
    TagList(m.IsCalculated(), m.HasFormula(), m.storage == SharedMember)
  }

  function TagList(calculated: bool, formula: bool, shared: bool): (tags: seq<string>)
    ensures "calculated" in tags <==> calculated
    ensures "formula" in tags <==> formula
    ensures "shared" in tags <==> shared
    ensures forall t :: t in tags ==> t in MemberTagOrder
  {
    (if calculated then ["calculated"] else []) +
    (if formula then ["formula"] else []) +
    (if shared then ["shared"] else [])
  }

  lemma TagRanks()
    ensures TagRank("calculated") == 0 && TagRank("formula") == 1 && TagRank("shared") == 2
  {
    assert "formula"[0] != "calculated"[0];
    assert "shared"[0] != "calculated"[0] && "shared"[0] != "formula"[0];
  }

  /** Tags drawn from the three in rank order, each at most once. */
  predicate RankOrdered(tags: seq<string>) {
    forall i, j :: 0 <= i < j < |tags| ==> TagRank(tags[i]) < TagRank(tags[j])
  }

  /** The tags come in the order "calculated", "formula", "shared". */
  lemma MemberTagsOrdered(m: Member)
    ensures RankOrdered(MemberTags(m))
  {
    TagListOrdered(m.IsCalculated(), m.HasFormula(), m.storage == SharedMember);
  }

  lemma TagListOrdered(calculated: bool, formula: bool, shared: bool)
    ensures RankOrdered(TagList(calculated, formula, shared))
  {
    TagRanks();
    var c: seq<string> := if calculated then ["calculated"] else [];
    var f: seq<string> := if formula then ["formula"] else [];
    var h: seq<string> := if shared then ["shared"] else [];
    OrderedConcat(c, f);
    OrderedConcat(c + f, h);
  }

  lemma OrderedConcat(a: seq<string>, b: seq<string>)
    requires RankOrdered(a) && RankOrdered(b)
    requires forall x, y :: x in a && y in b ==> TagRank(x) < TagRank(y)
    ensures RankOrdered(a + b)
  {
    forall i, j | 0 <= i < j < |a + b|
      ensures TagRank((a + b)[i]) < TagRank((a + b)[j])
    {
      if j < |a| {
      } else if i >= |a| {
        assert (a + b)[i] == b[i - |a|] && (a + b)[j] == b[j - |a|];
      } else {
        assert (a + b)[i] == a[i] && (a + b)[j] == b[j - |a|];
      }
    }
  }

  function MemberToSchemaField(m: Member): (f: SchemaField)
    ensures f.name == m.name && f.fieldType == MemberField
    ensures f.tags == MemberTags(m) && f.fields == []
  {
    SchemaField(m.name, MemberField, MemberDescription(m), [], Some("essbase_member_" + m.storage.Value()), MemberTags(m))
  }

  /** A top-level member: no parent, or level 0. */
  predicate IsRoot(m: Member) { m.parent.None? || m.level == 0 }

  predicate IsNested(m: Member) { m.parent.Some? && m.level != 0 }

  function RootMembers(d: Dimension): seq<Member> {
    Filter(d.members, IsRoot)
  }

  /** The root members are those without a parent or at level 0, in
      outline order: together with the others they interleave to the
      whole list. */
  lemma RootMembersSpec(d: Dimension)
    ensures forall m :: m in RootMembers(d) <==> m in d.members && (m.parent.None? || m.level == 0)
    ensures Interleaves(d.members, RootMembers(d), Filter(d.members, IsNested))
  {
    FilterInterleaves(d.members, IsRoot, IsNested);
  }

  /** The field type of a dimension follows its category. */
  function DimensionFieldType(c: DimensionCategory): (t: FieldType)
    ensures t == MeasureField <==> c == Accounts
    ensures t == DateField <==> c == Time
    ensures t == DimensionField <==> c != Accounts && c != Time
  {
    if c == Accounts then MeasureField else if c == Time then DateField else DimensionField
  }

  /** A dimension's field: typed by category, tagged with its storage
      type and category, nesting the fields of its first root members. */
  function DimensionToSchemaField(d: Dimension): (f: SchemaField)
    ensures f.name == d.name && f.fieldType == DimensionFieldType(d.category)
    ensures |f.fields| == Min(|RootMembers(d)|, NestedMemberLimit)
    ensures forall i :: 0 <= i < |f.fields| ==> f.fields[i] == MemberToSchemaField(RootMembers(d)[i])
    ensures f.tags == [d.dimensionType.Value(), d.category.Value()]
  {
    var roots := SliceTo(RootMembers(d), NestedMemberLimit);
    SchemaField(d.name, DimensionFieldType(d.category), None,
      seq(|roots|, i requires 0 <= i < |roots| => MemberToSchemaField(roots[i])),
      Some("essbase_" + d.dimensionType.Value() + "_dimension"),
      [d.dimensionType.Value(), d.category.Value()])
  }

  /** The virtual field standing for the cube's data values. */
  const MeasuresField := SchemaField("__measures__", DoubleField, Some("Data values at dimension intersections"),
    [], None, ["measures", "fact"])

  /** The dataset schema of a cube: one field per dimension, in order,
      then the measures field. */
  function CubeSchemaFields(c: Cube): (r: seq<SchemaField>)
    ensures |r| == |c.dimensions| + 1
    ensures forall i :: 0 <= i < |c.dimensions| ==> r[i] == DimensionToSchemaField(c.dimensions[i])
  {
    seq(|c.dimensions|, i requires 0 <= i < |c.dimensions| => DimensionToSchemaField(c.dimensions[i])) + [MeasuresField]
  }

  /** The measures field is the single field of type double, and it is the
      last one. */
  lemma MeasuresFieldLast(c: Cube)
    ensures CubeSchemaFields(c)[|c.dimensions|] == MeasuresField
    ensures forall i :: 0 <= i < |CubeSchemaFields(c)| ==>
      (CubeSchemaFields(c)[i].fieldType == DoubleField <==> i == |c.dimensions|)
  {
  }

  // ---------------------------------------------------------------------
  // Flat schema fields of the DataHub source

  datatype FlatType = StringType | NumberType | DateType

  /** A schema field addressed by its dotted path. */
  datatype FlatField = FlatField(path: string, fieldType: FlatType, nativeType: string, description: Option<string>)

  function FlatTypeOf(c: DimensionCategory): (t: FlatType)
    ensures t == NumberType <==> c == Accounts
    ensures t == DateType <==> c == Time
  {
    if c == Accounts then NumberType else if c == Time then DateType else StringType
  }

  function DimensionHeader(d: Dimension): FlatField {
    FlatField(d.name, FlatTypeOf(d.category), "essbase_" + d.dimensionType.Value(),
      Some(d.category.Value() + " dimension"))
  }

  function MemberFlatField(d: Dimension, m: Member): FlatField {
    FlatField(d.name + "." + m.name, StringType, "essbase_member_" + m.storage.Value(), MemberDescription(m))
  }

  /** The fields of one dimension: its own field, then one field per member
      of the `members[:cap]` slice. */
  function DimensionBlock(d: Dimension, cap: int): seq<FlatField> {
    var ms := SliceTo(d.members, cap);
    [DimensionHeader(d)] + seq(|ms|, i requires 0 <= i < |ms| => MemberFlatField(d, ms[i]))
  }

  /** A dimension's block opens with the dimension's own field, whose path
      is the dimension name, and continues with one string field per member
      in outline order, each with the path "Dim.Member", at most `cap` of
      them. */
  lemma DimensionBlockSpec(d: Dimension, cap: int)
    ensures DimensionBlock(d, cap)[0].path == d.name
    ensures DimensionBlock(d, cap)[0].fieldType == FlatTypeOf(d.category)
    ensures 0 <= cap ==> |DimensionBlock(d, cap)| == 1 + Min(cap, |d.members|)
    ensures cap < 0 ==> |DimensionBlock(d, cap)| == 1 + Max(|d.members| + cap, 0)
    ensures forall k :: 1 <= k < |DimensionBlock(d, cap)| ==>
      DimensionBlock(d, cap)[k].path == d.name + "." + d.members[k - 1].name &&
      DimensionBlock(d, cap)[k].fieldType == StringType
  {
    var ms := SliceTo(d.members, cap);
    forall k | 1 <= k < |DimensionBlock(d, cap)|
      ensures DimensionBlock(d, cap)[k].path == d.name + "." + d.members[k - 1].name
    {
      assert ms[k - 1] == d.members[k - 1];
    }
  }

  /** The flat field list of a cube: the blocks of its dimensions, in
      order. */
  function BuildSchemaFields(dims: seq<Dimension>, cap: int): seq<FlatField> {
    Flatten(seq(|dims|, i requires 0 <= i < |dims| => DimensionBlock(dims[i], cap)))
  }

  /** The field list grows block by block: adding a dimension appends its
      block and leaves the earlier fields as they were. */
  lemma BuildSchemaFieldsSnoc(dims: seq<Dimension>, d: Dimension, cap: int)
    ensures BuildSchemaFields([], cap) == []
    ensures BuildSchemaFields(dims + [d], cap) == BuildSchemaFields(dims, cap) + DimensionBlock(d, cap)
  {
    var all := seq(|dims + [d]|, i requires 0 <= i < |dims + [d]| => DimensionBlock((dims + [d])[i], cap));
    assert all[..|dims|] == seq(|dims|, i requires 0 <= i < |dims| => DimensionBlock(dims[i], cap));
  }
}
