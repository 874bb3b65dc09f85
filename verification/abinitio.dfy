/** The Ab Initio helpers: record fields of a DML file, field-to-field
    assignments of an XFR file, and the graph input/output mapping read
    from decoded JSON documents. */
module AbInitio {
  import opened Basics
  import opened Text
  import opened OrderedMap

  datatype Field = Field(name: string, fieldType: string)

  datatype Schema = Schema(name: string, fields: seq<Field>)

  /* ---------------- one assignment-like line ---------------- */

  /** `[A-Za-z_]`. */
  predicate IsNameStart(c: char) { IsLetter(c) || c == '_' }

  /** `[\w\-]`. */
  predicate IsNameChar(c: char) { IsWordChar(c) || c == '-' }

  /** `[A-Za-z_][\w\-]*` as a whole. */
  predicate IsName(x: string) {
    x != [] && IsNameStart(x[0]) && forall i :: 1 <= i < |x| ==> IsNameChar(x[i])
  }

  /** `[\w\(\)\[\]\,\s]`: the characters of a DML type. */
  predicate IsTypeChar(c: char) {
    IsWordChar(c) || c == '(' || c == ')' || c == '[' || c == ']' || c == ',' || IsSpace(c)
  }

  /** `[^;]`: the characters of an XFR source expression. */
  predicate NotSemicolon(c: char) { c != ';' }

  /** How `^(NAME)\s*SEP\s*(VALUE+)` can match the start of `s`: the name,
      whitespace up to the separator at `k`, and the longest run of value
      characters after it, ending at `e`. */
  predicate AssignmentShape(s: string, sep: char, inValue: char -> bool, name: string, k: nat, e: nat) {
    IsName(name) && |name| <= k < e <= |s| && s[..|name|] == name
    && (forall i :: |name| <= i < k ==> IsSpace(s[i])) && s[k] == sep
    && k + 1 < e && (forall i :: k < i < e ==> inValue(s[i])) && (e == |s| || !inValue(s[e]))
  }

  /** The leading `NAME SEP VALUE` of a line, with the value taken from just
      after the separator.  Neither the name nor the whitespace before the
      separator can give back a character to let the rest match (a name
      character is neither whitespace nor the separator), so the regex has
      one way to match.  The regex's own value group starts after the
      whitespace that follows the separator when the value characters go on
      past it; both value classes hold whitespace, so the group differs from
      the text returned here by leading whitespace only, which every caller
      strips. */
  function LeadingAssignment(s: string, sep: char, inValue: char -> bool): (r: Option<(string, string)>)
    ensures r.Some? ==> IsName(r.value.0) && r.value.0 <= s
  {
    if s == [] || !IsNameStart(s[0]) then None
    else
      var n := RunEnd(s, 1, IsNameChar);
      var k := SpaceEnd(s, n);
      if k == |s| || s[k] != sep then None
      else
        var e := RunEnd(s, k + 1, inValue);
        if e == k + 1 then None else Some((s[..n], s[k + 1..e]))
  }

  /** Every value found is a match of the shape. */
  lemma AssignmentFound(s: string, sep: char, inValue: char -> bool) returns (k: nat, e: nat)
    requires LeadingAssignment(s, sep, inValue).Some?
    ensures AssignmentShape(s, sep, inValue, LeadingAssignment(s, sep, inValue).value.0, k, e)
    ensures LeadingAssignment(s, sep, inValue).value.1 == s[k + 1..e]
  {
    var n := RunEnd(s, 1, IsNameChar);
    k := SpaceEnd(s, n);
    e := RunEnd(s, k + 1, inValue);
  }

  /** Every match of the shape is the one found, when the separator is
      neither a name character nor whitespace. */
  lemma AssignmentUnique(s: string, sep: char, inValue: char -> bool, name: string, k: nat, e: nat)
    requires !IsNameChar(sep) && !IsSpace(sep)
    requires AssignmentShape(s, sep, inValue, name, k, e)
    ensures LeadingAssignment(s, sep, inValue) == Some((name, s[k + 1..e]))
  {
    assert s[0] == name[0];
    forall i | 1 <= i < |name| ensures IsNameChar(s[i]) {
      assert s[i] == name[i];
    }
    assert !IsNameChar(s[|name|]) by {
      if |name| < k {
        assert IsSpace(s[|name|]);
      }
    }
    RunEndAt(s, 1, |name|, IsNameChar);
    RunEndAt(s, |name|, k, IsSpace);
    RunEndAt(s, k + 1, e, inValue);
  }

  /** A line laid out as name, whitespace, separator, value and a rest that
      does not continue the value gives that name and value. */
  lemma AssignmentOf(s: string, sep: char, inValue: char -> bool, name: string, sp: string, v: string, rest: string)
    requires s == name + sp + [sep] + v + rest
    requires IsName(name) && !IsNameChar(sep) && !IsSpace(sep)
    requires forall i :: 0 <= i < |sp| ==> IsSpace(sp[i])
    requires v != [] && forall i :: 0 <= i < |v| ==> inValue(v[i])
    requires rest == [] || !inValue(rest[0])
    ensures LeadingAssignment(s, sep, inValue) == Some((name, v))
  {
    var k := |name| + |sp|;
    var e := k + 1 + |v|;
    assert s[..|name|] == name;
    forall i | |name| <= i < k ensures IsSpace(s[i]) {
      assert s[i] == sp[i - |name|];
    }
    assert s[k] == sep;
    forall i | k < i < e ensures inValue(s[i]) {
      assert s[i] == v[i - k - 1];
    }
    if e < |s| {
      assert s[e] == rest[0];
    }
    assert s[k + 1..e] == v;
    AssignmentUnique(s, sep, inValue, name, k, e);
  }

  /** A line that starts with a name is neither blank nor a comment. */
  lemma NameStartsLine(s: string, name: string)
    requires IsName(name) && name <= s
    ensures s != [] && s[0] != '#'
  {
    assert s[0] == name[0];
  }

  /* ---------------- DML fields ---------------- */

  /** `^(NAME)\s*:\s*(TYPE+)` on a stripped line, the type stripped. */
  function DmlMatch(s: string): (r: Option<Field>)
    ensures r.Some? ==> IsName(r.value.name)
  {
    match LeadingAssignment(s, ':', IsTypeChar)
    case None => None
    case Some((name, v)) => Some(Field(name, Strip(v)))
  }

  /** The field a line of a DML file declares: the line is stripped, and
      blank lines and `#` comments declare none. */
  function DmlLine(raw: string): Option<Field> {
    var s := Strip(raw);
    if s == [] || s[0] == '#' then None else DmlMatch(s)
  }

  /** The fields of the lines, in line order. */
  function DmlFields(lines: seq<string>): seq<Field> {
    FilterMap(lines, DmlLine)
  }

  /** `Path.name` of a POSIX path: its last component, ignoring empty and
      `.` components. */
  function PathName(path: string): string {
    var parts := Filter(Split(path, '/'), IsPart);
    if parts == [] then [] else parts[|parts| - 1]
  }

  predicate IsPart(c: string) { c != [] && c != "." }

  /** `Path.stem`: the name without its last suffix, where a suffix starts
      at the last `.` that is neither the first nor the last character. */
  function Stem(name: string): (r: string)
    ensures r <= name
  {
    match SplitLast(name, '.')
    case None => name
    case Some((before, after)) => if before != [] && after != [] then before else name
  }

  /** `parse_dml`: the schema named after the file stem, with the fields of
      its lines. */
  function ParseDml(path: string, text: string): (r: Schema)
    ensures forall f :: f in r.fields ==> IsName(f.name) && Strip(f.fieldType) == f.fieldType
  {
    var fields := DmlFields(SplitLines(text));
    forall f | f in fields ensures IsName(f.name) && Strip(f.fieldType) == f.fieldType {
      FilterMapMembers(SplitLines(text), DmlLine, f);
      var i :| 0 <= i < |SplitLines(text)| && DmlLine(SplitLines(text)[i]) == Some(f);
      var s := Strip(SplitLines(text)[i]);
      var v := LeadingAssignment(s, ':', IsTypeChar).value.1;
      StripIdempotent(v);
    }
    Schema(Stem(PathName(path)), fields)
  }

  /** A field is a line matching the DML shape: a name, a colon, and the
      longest run of type characters, stripped. */
  predicate DmlShape(s: string, f: Field, k: nat, e: nat) {
    AssignmentShape(s, ':', IsTypeChar, f.name, k, e) && f.fieldType == Strip(s[k + 1..e])
  }

  lemma DmlMatchSound(s: string, f: Field) returns (k: nat, e: nat)
    requires DmlMatch(s) == Some(f)
    ensures DmlShape(s, f, k, e)
  {
    k, e := AssignmentFound(s, ':', IsTypeChar);
  }

  lemma DmlMatchComplete(s: string, f: Field, k: nat, e: nat)
    requires DmlShape(s, f, k, e)
    ensures DmlMatch(s) == Some(f)
  {
    AssignmentUnique(s, ':', IsTypeChar, f.name, k, e);
  }

  lemma DmlMatchShape(s: string, f: Field)
    ensures DmlMatch(s) == Some(f) <==> exists k: nat, e: nat :: DmlShape(s, f, k, e)
  {
    if DmlMatch(s) == Some(f) {
      var k, e := DmlMatchSound(s, f);
    }
    if exists k: nat, e: nat :: DmlShape(s, f, k, e) {
      var k: nat, e: nat :| DmlShape(s, f, k, e);
      DmlMatchComplete(s, f, k, e);
    }
  }

  /** `name: type` on a stripped line declares that field. */
  lemma DmlMatchOf(name: string, t: string)
    requires IsName(name) && t != [] && forall i :: 0 <= i < |t| ==> IsTypeChar(t[i])
    requires !IsSpace(t[0]) && !IsSpace(t[|t| - 1])
    ensures DmlMatch(name + ": " + t) == Some(Field(name, t))
  {
    var s := name + ": " + t;
    var v := " " + t;
    assert s == name + [] + [':'] + v + [];
    assert forall i :: 0 <= i < |v| ==> IsTypeChar(v[i]) by {
      forall i | 0 <= i < |v| ensures IsTypeChar(v[i]) {
        if i > 0 {
          assert v[i] == t[i - 1];
        }
      }
    }
    AssignmentOf(s, ':', IsTypeChar, name, [], v, []);
    StripAfterSpaces(" ", t);
    StripUnspaced(t);
  }

  /** `name: type` declares that field. */
  lemma DmlLineRoundTrip(name: string, t: string)
    requires IsName(name) && t != [] && forall i :: 0 <= i < |t| ==> IsTypeChar(t[i])
    requires !IsSpace(t[0]) && !IsSpace(t[|t| - 1])
    ensures DmlLine(name + ": " + t) == Some(Field(name, t))
  {
    var s := name + ": " + t;
    assert s[0] == name[0] && s[|s| - 1] == t[|t| - 1];
    StripUnspaced(s);
    DmlMatchOf(name, t);
    assert name <= s;
    NameStartsLine(s, name);
  }

  /** The fields of two runs of lines are those of each, in order. */
  lemma DmlFieldsAppend(a: seq<string>, b: seq<string>)
    ensures DmlFields(a + b) == DmlFields(a) + DmlFields(b)
  {
    FilterMapAppend(a, b, DmlLine);
  }

  /** A line contributes one field when it matches and none otherwise. */
  lemma DmlFieldsOfLine(line: string)
    ensures DmlFields([line]) == if DmlLine(line).Some? then [DmlLine(line).value] else []
  {
    FilterMapAppend([], [line], DmlLine);
    assert [] + [line] == [line];
  }

  /** The schema is named after the file: `dir/base.ext` gives `base`. */
  lemma SchemaNameIsStem(dir: string, base: string, ext: string, text: string)
    requires base != [] && ext != [] && '/' !in base && '/' !in ext && '.' !in ext
    ensures ParseDml(dir + "/" + base + "." + ext, text).name == base
  {
    var file := base + "." + ext;
    assert '/' !in file by {
      assert forall i :: 0 <= i < |file| ==> file[i] == (if i < |base| then base[i] else if i == |base| then '.' else ext[i - |base| - 1]);
    }
    assert dir + "/" + base + "." + ext == dir + ['/'] + file;
    SplitAppendPiece(dir, file, '/');
    FilterAppend(Split(dir, '/'), [file], IsPart);
    assert IsPart(file) by { assert |file| >= 3; }
    assert Filter([file], IsPart) == [file];
    assert PathName(dir + ['/'] + file) == file;
    SplitLastOf(base, ext, '.');
    assert file == base + ['.'] + ext;
  }

  /* ---------------- XFR mappings ---------------- */

  /** `^(TARGET)\s*=\s*([^;]+)` on a stripped line, as (source, target):
      the source is the text up to the first `;`, stripped. */
  function XfrMatch(s: string): (r: Option<(string, string)>)
    ensures r.Some? ==> IsName(r.value.1)
  {
    match LeadingAssignment(s, '=', NotSemicolon)
    case None => None
    case Some((target, v)) => Some((Strip(v), target))
  }

  /** The mapping a line of an XFR file states, if any. */
  function XfrLine(raw: string): Option<(string, string)> {
    var s := Strip(raw);
    if s == [] || s[0] == '#' then None else XfrMatch(s)
  }

  /** `parse_xfr_mappings`: the (source, target) pairs of the lines, in
      line order. */
  function XfrMappings(lines: seq<string>): seq<(string, string)> {
    FilterMap(lines, XfrLine)
  }

  /** A mapping is a line matching the XFR shape. */
  predicate XfrShape(s: string, source: string, target: string, k: nat, e: nat) {
    AssignmentShape(s, '=', NotSemicolon, target, k, e) && source == Strip(s[k + 1..e])
  }

  lemma XfrMatchSound(s: string, source: string, target: string) returns (k: nat, e: nat)
    requires XfrMatch(s) == Some((source, target))
    ensures XfrShape(s, source, target, k, e)
  {
    k, e := AssignmentFound(s, '=', NotSemicolon);
  }

  lemma XfrMatchComplete(s: string, source: string, target: string, k: nat, e: nat)
    requires XfrShape(s, source, target, k, e)
    ensures XfrMatch(s) == Some((source, target))
  {
    AssignmentUnique(s, '=', NotSemicolon, target, k, e);
  }

  lemma XfrMatchShape(s: string, source: string, target: string)
    ensures XfrMatch(s) == Some((source, target)) <==> exists k: nat, e: nat :: XfrShape(s, source, target, k, e)
  {
    if XfrMatch(s) == Some((source, target)) {
      var k, e := XfrMatchSound(s, source, target);
    }
    if exists k: nat, e: nat :: XfrShape(s, source, target, k, e) {
      var k: nat, e: nat :| XfrShape(s, source, target, k, e);
      XfrMatchComplete(s, source, target, k, e);
    }
  }

  /** `target = source;` gives the pair the other way round. */
  lemma XfrLineRoundTrip(target: string, source: string)
    requires IsName(target) && source != [] && ';' !in source
    requires !IsSpace(source[0]) && !IsSpace(source[|source| - 1])
    ensures XfrLine(target + " = " + source + ";") == Some((source, target))
  {
    var s := target + " = " + source + ";";
    var v := " " + source;
    assert s == target + " " + ['='] + v + ";";
    assert s[0] == target[0] && s[|s| - 1] == ';';
    StripUnspaced(s);
    assert forall i :: 0 <= i < |v| ==> NotSemicolon(v[i]) by {
      forall i | 0 <= i < |v| ensures NotSemicolon(v[i]) {
        if i > 0 {
          assert v[i] == source[i - 1];
        }
      }
    }
    AssignmentOf(s, '=', NotSemicolon, target, " ", v, ";");
    StripAfterSpaces(" ", source);
    StripUnspaced(source);
    assert Strip(v) == source;
    assert XfrMatch(s) == Some((source, target));
    NameStartsLine(s, target);
  }

  /** The source ends at the first `;`, whatever follows it. */
  lemma XfrSourceStopsAtSemicolon(target: string, v: string, rest: string)
    requires IsName(target) && v != [] && ';' !in v
    ensures XfrMatch(target + "=" + v + ";" + rest) == Some((Strip(v), target))
  {
    var s := target + "=" + v + ";" + rest;
    assert s == target + [] + ['='] + v + (";" + rest);
    AssignmentOf(s, '=', NotSemicolon, target, [], v, ";" + rest);
  }

  /** A dotted target such as `out.x = in.x` never matches: the name stops at
      the dot, which is neither whitespace nor `=`. */
  lemma DottedTargetNeverMatches(target: string, rest: string)
    requires IsName(target)
    ensures XfrMatch(target + "." + rest) == None
  {
    var s := target + "." + rest;
    assert s[0] == target[0];
    forall i | 1 <= i < |target| ensures IsNameChar(s[i]) {
      assert s[i] == target[i];
    }
    assert s[|target|] == '.';
    RunEndAt(s, 1, |target|, IsNameChar);
  }

  lemma XfrMappingsAppend(a: seq<string>, b: seq<string>)
    ensures XfrMappings(a + b) == XfrMappings(a) + XfrMappings(b)
  {
    FilterMapAppend(a, b, XfrLine);
  }

  lemma XfrMappingsOfLine(line: string)
    ensures XfrMappings([line]) == if XfrLine(line).Some? then [XfrLine(line).value] else []
  {
    FilterMapAppend([], [line], XfrLine);
    assert [] + [line] == [line];
  }

  /* ---------------- the graph input/output mapping ---------------- */

  /** A decoded JSON value. An object is its field list in document
      order; `json.load` keeps the last of repeated keys, so the objects
      meant here hold each key once, and lookups read that one binding. */
  datatype Json =
    | JNull
    | JBool(b: bool)
    | JNumber(n: int)
    | JString(s: string)
    | JArray(items: seq<Json>)
    | JObject(fields: OMap<string, Json>)

  datatype GraphIo = GraphIo(inputs: seq<Json>, outputs: seq<Json>)

  /** `payload.get(key, [])` kept when it is a list and replaced by `[]`
      otherwise. */
  function ListField(payload: OMap<string, Json>, key: string): (r: seq<Json>)
    ensures Get(payload, key).Some? && Get(payload, key).value.JArray? ==> r == Get(payload, key).value.items
    ensures !(Get(payload, key).Some? && Get(payload, key).value.JArray?) ==> r == []
  {
    var v := Get(payload, key);
    if v.Some? && v.value.JArray? then v.value.items else []
  }

  /** What one graph entry records: nothing for a payload that is not an
      object. */
  function EntryIo(payload: Json): Option<GraphIo> {
    match payload
    case JObject(f) => Some(GraphIo(ListField(f, "inputs"), ListField(f, "outputs")))
    case _ => None
  }

  /** Record the entries of one document, in order, each overwriting an
      earlier entry of the same graph. */
  function LoadEntries(acc: OMap<string, GraphIo>, entries: OMap<string, Json>): OMap<string, GraphIo>
    decreases |entries|
  {
    if entries == [] then acc
    else
      var before := LoadEntries(acc, entries[..|entries| - 1]);
      var (graph, payload) := entries[|entries| - 1];
      match EntryIo(payload)
      case None => before
      case Some(io) => Put(before, graph, io)
  }

  /** Record one decoded document; one that is not an object adds nothing. */
  function LoadDocument(acc: OMap<string, GraphIo>, data: Json): OMap<string, GraphIo> {
    match data
    case JObject(entries) => LoadEntries(acc, entries)
    case _ => acc
  }

  /** `load_io_mapping` over the decoded documents, in order. */
  function LoadIoMapping(documents: seq<Json>): OMap<string, GraphIo>
    decreases |documents|
  {
    if documents == [] then []
    else LoadDocument(LoadIoMapping(documents[..|documents| - 1]), documents[|documents| - 1])
  }

  /** The last object payload recorded for `graph` among the entries. */
  function LastEntry(entries: OMap<string, Json>, graph: string): Option<GraphIo>
    decreases |entries|
  {
    if entries == [] then None
    else
      var (g, payload) := entries[|entries| - 1];
      if g == graph && EntryIo(payload).Some? then EntryIo(payload)
      else LastEntry(entries[..|entries| - 1], graph)
  }

  /** The last object payload recorded for `graph` in any document. */
  function LastInDocuments(documents: seq<Json>, graph: string): Option<GraphIo>
    decreases |documents|
  {
    if documents == [] then None
    else
      var last := match documents[|documents| - 1]
        case JObject(entries) => LastEntry(entries, graph)
        case _ => None;
      if last.Some? then last else LastInDocuments(documents[..|documents| - 1], graph)
  }

  lemma {:induction false} LoadEntriesGet(acc: OMap<string, GraphIo>, entries: OMap<string, Json>, graph: string)
    requires Valid(acc)
    ensures Valid(LoadEntries(acc, entries))
    ensures Get(LoadEntries(acc, entries), graph) ==
      if LastEntry(entries, graph).Some? then LastEntry(entries, graph) else Get(acc, graph)
    decreases |entries|
  {
    if entries != [] {
      var front := entries[..|entries| - 1];
      LoadEntriesGet(acc, front, graph);
      var before := LoadEntries(acc, front);
      var (g, payload) := entries[|entries| - 1];
      if EntryIo(payload).Some? {
        PutValid(before, g, EntryIo(payload).value);
        PutGet(before, g, EntryIo(payload).value, graph);
      }
    }
  }

  /** Later documents, and later entries of one document, overwrite earlier
      entries of the same graph; payloads that are not objects and documents
      that are not objects are skipped.  The mapping is a dictionary. */
  lemma {:induction false} LoadIoMappingGet(documents: seq<Json>, graph: string)
    ensures Valid(LoadIoMapping(documents))
    ensures Get(LoadIoMapping(documents), graph) == LastInDocuments(documents, graph)
    decreases |documents|
  {
    if documents != [] {
      var front := documents[..|documents| - 1];
      LoadIoMappingGet(front, graph);
      var last := documents[|documents| - 1];
      if last.JObject? {
        LoadEntriesGet(LoadIoMapping(front), last.fields, graph);
      }
    }
  }

  /** A graph with a single object entry records its list-valued inputs and
      outputs, and `[]` for any that are not lists. */
  lemma SingleGraph(graph: string, payload: OMap<string, Json>)
    ensures Get(LoadIoMapping([JObject([(graph, JObject(payload))])]), graph) ==
      Some(GraphIo(ListField(payload, "inputs"), ListField(payload, "outputs")))
  {
    var entries := [(graph, JObject(payload))];
    assert entries[..0] == [];
    LoadIoMappingGet([JObject(entries)], graph);
    assert [JObject(entries)][..0] == [];
  }
}
