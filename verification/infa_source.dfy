/** The pmrep-based Informatica source: ignore patterns for placeholder
    tables, the dataset a table reference becomes, the custom properties of
    a job, and the fine-grained column lineage of a target instance. */
module InfaSource {
  import opened Basics
  import opened Text
  import opened OrderedMap
  import PortGraph

  /* ---------------- the ignore-pattern regex ---------------- */

  /** The characters `re.escape` prefixes with a backslash (Python 3.7 and
      later): `( ) [ ] { } ? * + - | ^ $ \ . & ~ #`, space and the five
      whitespace controls. `%` and `_` are not among them. */
  predicate IsEscaped(c: char) {
    c in "()[]{}?*+-|^$\\.&~# \t\n\r" || c as int == 0x0B || c as int == 0x0C
  }

  /** Characters with a meaning in a regular expression when unescaped. */
  predicate IsMeta(c: char) {
    c in ".^$*+?{}[]\\|()"
  }

  function EscapeChar(c: char): string {
    if IsEscaped(c) then ['\\', c] else [c]
  }

  /** `re.escape`. */
  function Escape(pat: string): string
    decreases |pat|
  {
    if pat == [] then [] else EscapeChar(pat[0]) + Escape(pat[1..])
  }

  /** `str.replace`: every occurrence of `from`, left to right and without
      overlap, replaced by `to`. */
  function Replace(s: string, from: string, to: string): string
    requires from != []
    decreases |s|
  {
    if s == [] then []
    else if StartsWith(s, from) then to + Replace(s[|from|..], from, to)
    else [s[0]] + Replace(s[1..], from, to)
  }

  /** The regular expression text `_like_to_regex` builds from a pattern,
      without the anchors. */
  function AsWrittenRegex(pat: string): string {
    Replace(Replace(Escape(pat), "\\%", ".*"), "\\_", ".")
  }

  /** One character position of a compiled regex, possibly starred. */
  datatype Atom = Literal(c: char) | AnyChar
  datatype Piece = Piece(atom: Atom, repeated: bool)

  /** Compile the regex text: escaped and plain characters are literals,
      `.` is any character but a newline, a following `*` repeats.  Syntax
      the built text never holds (other metacharacters, a letter escape, a
      doubled or leading star) is an error. */
  function ParseRegex(r: string): (ps: Option<seq<Piece>>)
    ensures ps.Some? ==> |ps.value| <= |r|
    decreases |r|
  {
    if r == [] then Some([])
    else
      var width := if r[0] == '\\' then 2 else 1;
      if |r| < width || (r[0] == '\\' && (IsLetter(r[1]) || IsDigit(r[1])))
        || (r[0] != '\\' && r[0] != '.' && IsMeta(r[0])) then None
      else
        var atom := if r[0] == '\\' then Literal(r[1]) else if r[0] == '.' then AnyChar else Literal(r[0]);
        var repeated := width < |r| && r[width] == '*';
        match ParseRegex(r[(if repeated then width + 1 else width)..])
        case None => None
        case Some(rest) => Some([Piece(atom, repeated)] + rest)
  }

  /** `re.IGNORECASE` comparison of a literal; `.` stops at newlines. */
  predicate AtomMatches(a: Atom, c: char) {
    match a
    case Literal(x) => LowerChar(x) == LowerChar(c)
    case AnyChar => c != '\n'
  }

  /** The pieces match the whole of `s`. */
  predicate MatchesAll(ps: seq<Piece>, s: string)
    decreases |ps|, |s|
  {
    if ps == [] then s == []
    else if ps[0].repeated then
      MatchesAll(ps[1..], s) || (s != [] && AtomMatches(ps[0].atom, s[0]) && MatchesAll(ps, s[1..]))
    else s != [] && AtomMatches(ps[0].atom, s[0]) && MatchesAll(ps[1..], s[1..])
  }

  /** `re.match` of `^…$`: `$` also matches before a final newline. */
  predicate FullMatch(ps: seq<Piece>, s: string) {
    MatchesAll(ps, s) || (s != [] && s[|s| - 1] == '\n' && MatchesAll(ps, s[..|s| - 1]))
  }

  /** A compiled `_like_to_regex(pat)` matches the table name. */
  predicate MatchesAsWritten(pat: string, name: string) {
    match ParseRegex(AsWrittenRegex(pat))
    case None => false
    case Some(ps) => FullMatch(ps, name)
  }

  /** Every character of `p` as a case-insensitive literal. */
  function LiteralPieces(p: string): (ps: seq<Piece>)
    ensures |ps| == |p| && forall i :: 0 <= i < |p| ==> ps[i] == Piece(Literal(p[i]), false)
  {
    seq(|p|, i requires 0 <= i < |p| => Piece(Literal(p[i]), false))
  }

  /** Escaped characters are never letters or digits; the others are never
      metacharacters. */
  lemma EscapeClasses(c: char)
    ensures IsEscaped(c) ==> !IsLetter(c) && !IsDigit(c)
    ensures !IsEscaped(c) ==> !IsMeta(c) && c != '\\' && c != '*' && c != '.'
  {
  }

  /** The escaped text compiles back to the pattern's own characters. */
  lemma {:induction false} ParseEscape(pat: string)
    ensures ParseRegex(Escape(pat)) == Some(LiteralPieces(pat))
    ensures pat != [] ==> Escape(pat) != [] && Escape(pat)[0] != '*'
    decreases |pat|
  {
    if pat != [] {
      var c := pat[0];
      var rest := Escape(pat[1..]);
      ParseEscape(pat[1..]);
      var r := EscapeChar(c) + rest;
      assert Escape(pat) == r;
      var width := if IsEscaped(c) then 2 else 1;
      EscapeClasses(c);
      assert r[width..] == rest;
      assert r[0] == '\\' <==> IsEscaped(c);
      assert width < |r| ==> r[width] != '*';
      assert LiteralPieces(pat) == [Piece(Literal(c), false)] + LiteralPieces(pat[1..]);
    }
  }

  /** A character that cannot start `\` + `d` passes through a replacement. */
  lemma ReplacePlainHead(c: char, rest: string, d: char, to: string)
    requires c != '\\' && Replace(rest, ['\\', d], to) == rest
    ensures Replace([c] + rest, ['\\', d], to) == [c] + rest
  {
    var s := [c] + rest;
    assert !StartsWith(s, ['\\', d]) by { assert s[0] == c; }
    assert s[1..] == rest;
  }

  /** An escaped character `\` + `c` other than `\` + `d` passes through a
      replacement. */
  lemma ReplaceEscapedHead(c: char, rest: string, d: char, to: string)
    requires c != '\\' && c != d && Replace(rest, ['\\', d], to) == rest
    ensures Replace(['\\', c] + rest, ['\\', d], to) == ['\\', c] + rest
  {
    var s := ['\\', c] + rest;
    assert !StartsWith(s, ['\\', d]) by { assert s[1] == c; }
    assert s[1..] == [c] + rest;
    ReplacePlainHead(c, rest, d, to);
  }

  /** Without a backslash, the escaped pattern holds no `\` + `d` for a
      character `d` that `re.escape` leaves alone. */
  lemma {:induction false} ReplaceEscapeUnchanged(pat: string, d: char, to: string)
    requires '\\' !in pat && !IsEscaped(d)
    ensures Replace(Escape(pat), ['\\', d], to) == Escape(pat)
    decreases |pat|
  {
    if pat != [] {
      var c := pat[0];
      var rest := Escape(pat[1..]);
      ReplaceEscapeUnchanged(pat[1..], d, to);
      assert c != '\\' by { assert c in pat; }
      assert Escape(pat) == EscapeChar(c) + rest;
      if IsEscaped(c) {
        ReplaceEscapedHead(c, rest, d, to);
      } else {
        ReplacePlainHead(c, rest, d, to);
      }
    }
  }

  /** The literal pieces of `p` match exactly the texts equal to `p` up to
      case. */
  lemma {:induction false} MatchesLiteral(p: string, s: string)
    ensures MatchesAll(LiteralPieces(p), s) <==> Lower(s) == Lower(p)
    decreases |p|
  {
    if p == [] {
      assert Lower(s) == Lower(p) <==> s == [];
    } else if s == [] {
    } else {
      MatchesLiteral(p[1..], s[1..]);
      assert LiteralPieces(p)[1..] == LiteralPieces(p[1..]);
      assert Lower(s) == Lower(p) <==> LowerChar(s[0]) == LowerChar(p[0]) && Lower(s[1..]) == Lower(p[1..]) by {
        if Lower(s[1..]) == Lower(p[1..]) && LowerChar(s[0]) == LowerChar(p[0]) {
          assert Lower(s) == [LowerChar(s[0])] + Lower(s[1..]);
          assert Lower(p) == [LowerChar(p[0])] + Lower(p[1..]);
        }
        if Lower(s) == Lower(p) {
          assert Lower(s[1..]) == Lower(s)[1..];
          assert Lower(p[1..]) == Lower(p)[1..];
        }
      }
    }
  }

  /** Anchored, literal pieces match the pattern's own text up to case,
      with or without a final newline. */
  lemma FullMatchLiteral(p: string, name: string)
    ensures FullMatch(LiteralPieces(p), name) <==> Lower(name) == Lower(p) || Lower(name) == Lower(p) + "\n"
  {
    MatchesLiteral(p, name);
    if name != [] && name[|name| - 1] == '\n' {
      MatchesLiteral(p, name[..|name| - 1]);
      assert Lower(name) == Lower(name[..|name| - 1]) + "\n";
    }
    if Lower(name) == Lower(p) + "\n" {
      assert name[|name| - 1] == '\n' by { assert LowerChar(name[|name| - 1]) == '\n'; }
      assert Lower(name[..|name| - 1]) == Lower(name)[..|name| - 1];
    }
  }

  /** Without a backslash the built regex is the pattern's own text. */
  lemma AsWrittenCompiles(pat: string)
    requires '\\' !in pat
    ensures ParseRegex(AsWrittenRegex(pat)) == Some(LiteralPieces(pat))
  {
    ReplaceEscapeUnchanged(pat, '%', ".*");
    ReplaceEscapeUnchanged(pat, '_', ".");
    ParseEscape(pat);
  }

  /** As the source is written, a pattern without a backslash is compared
      as literal text, ignoring case: `%` and `_` stand for themselves. */
  lemma AsWrittenIsLiteral(pat: string, name: string)
    requires '\\' !in pat
    ensures MatchesAsWritten(pat, name) <==> Lower(name) == Lower(pat) || Lower(name) == Lower(pat) + "\n"
  {
    AsWrittenCompiles(pat);
    FullMatchLiteral(pat, name);
  }

  /* ---------------- SQL LIKE, as the comment describes ---------------- */

  /** The evidently intended translation: `%` any run of characters, `_`
      any one character, everything else a literal. */
  function LikePiece(c: char): Piece {
    if c == '%' then Piece(AnyChar, true)
    else if c == '_' then Piece(AnyChar, false)
    else Piece(Literal(c), false)
  }

  function LikePieces(pat: string): (ps: seq<Piece>)
    ensures |ps| == |pat| && forall i :: 0 <= i < |pat| ==> ps[i] == LikePiece(pat[i])
  {
    seq(|pat|, i requires 0 <= i < |pat| => LikePiece(pat[i]))
  }

  predicate MatchesLike(pat: string, name: string) {
    FullMatch(LikePieces(pat), name)
  }

  /** Literal pieces in front consume exactly their own text. */
  lemma {:induction false} MatchesLiteralThen(p: string, rest: seq<Piece>, s: string)
    ensures MatchesAll(LiteralPieces(p) + rest, s)
      <==> |s| >= |p| && Lower(s[..|p|]) == Lower(p) && MatchesAll(rest, s[|p|..])
    decreases |p|
  {
    if p != [] {
      var ps := LiteralPieces(p) + rest;
      assert ps[0] == Piece(Literal(p[0]), false);
      assert ps[1..] == LiteralPieces(p[1..]) + rest;
      if s != [] {
        MatchesLiteralThen(p[1..], rest, s[1..]);
        if |s| >= |p| {
          assert s[1..][..|p| - 1] == s[..|p|][1..];
          assert s[1..][|p| - 1..] == s[|p|..];
          assert Lower(s[..|p|]) == [LowerChar(s[0])] + Lower(s[..|p|][1..]);
          assert Lower(p) == [LowerChar(p[0])] + Lower(p[1..]);
        }
      }
    } else {
      assert LiteralPieces(p) + rest == rest;
    }
  }

  /** A starred `.` matches exactly the texts without a newline. */
  lemma {:induction false} AnyRun(t: string)
    ensures MatchesAll([Piece(AnyChar, true)], t) <==> '\n' !in t
    decreases |t|
  {
    var ps := [Piece(AnyChar, true)];
    assert ps[1..] == [];
    if t != [] {
      AnyRun(t[1..]);
      assert '\n' in t <==> t[0] == '\n' || '\n' in t[1..] by {
        assert t == [t[0]] + t[1..];
      }
    }
  }

  /** A pattern without wildcards means the same under both readings. */
  lemma LikeWithoutWildcards(pat: string, name: string)
    requires '%' !in pat && '_' !in pat && '\\' !in pat
    ensures MatchesLike(pat, name) <==> MatchesAsWritten(pat, name)
  {
    assert LikePieces(pat) == LiteralPieces(pat);
    AsWrittenCompiles(pat);
  }

  /** `p%` matches the names that start with `p`, ignoring case, and go on
      without a line break. */
  lemma LikePrefix(p: string, name: string)
    requires '%' !in p && '_' !in p
    ensures MatchesAll(LikePieces(p + "%"), name)
      <==> |name| >= |p| && Lower(name[..|p|]) == Lower(p) && '\n' !in name[|p|..]
  {
    assert LikePieces(p + "%") == LiteralPieces(p) + [Piece(AnyChar, true)];
    MatchesLiteralThen(p, [Piece(AnyChar, true)], name);
    if |name| >= |p| {
      AnyRun(name[|p|..]);
    }
  }

  /** `DUMMY_%`, the documented example, does not match `DUMMY_T1` as
      written. */
  lemma DummyPatternAsWritten()
    ensures !MatchesAsWritten("DUMMY_%", "DUMMY_T1")
  {
    var name, pat := "DUMMY_T1", "DUMMY_%";
    AsWrittenIsLiteral(pat, name);
    assert |Lower(name)| == 8 && |Lower(pat)| == 7;
    assert Lower(name)[6] == LowerChar(name[6]) == 't';
    assert (Lower(pat) + "\n")[6] == LowerChar(pat[6]) == '%';
  }

  /** Read as SQL LIKE, `DUMMY_%` ignores `DUMMY_T1`. */
  lemma DummyPatternLike()
    ensures MatchesLike("DUMMY_%", "DUMMY_T1")
  {
    var name := "DUMMY_T1";
    var rest := [Piece(AnyChar, false), Piece(AnyChar, true)];
    assert LikePieces("DUMMY_%") == LiteralPieces("DUMMY") + rest;
    MatchesLiteralThen("DUMMY", rest, name);
    assert name[..5] == "DUMMY";
    assert name[5..] == "_T1";
    assert rest[1..] == [Piece(AnyChar, true)];
    assert "_T1"[1..] == "T1";
    AnyRun("T1");
    assert MatchesAll(rest, "_T1");
  }

  /* ---------------- ignored tables and datasets ---------------- */

  /** `_is_ignored_table`: some compiled pattern matches the whole name. */
  predicate IgnoredAsWritten(patterns: seq<string>, name: string) {
    exists i :: 0 <= i < |patterns| && MatchesAsWritten(patterns[i], name)
  }

  /** The same check with the patterns read as SQL LIKE. */
  predicate IgnoredLike(patterns: seq<string>, name: string) {
    exists i :: 0 <= i < |patterns| && MatchesLike(patterns[i], name)
  }

  /** With backslash-free patterns, the source ignores exactly the names
      equal to a pattern up to case (or to it and a final newline). */
  lemma IgnoredAsWrittenIsLiteral(patterns: seq<string>, name: string)
    requires forall i :: 0 <= i < |patterns| ==> '\\' !in patterns[i]
    ensures IgnoredAsWritten(patterns, name)
      <==> exists i :: 0 <= i < |patterns| && (Lower(name) == Lower(patterns[i]) || Lower(name) == Lower(patterns[i]) + "\n")
  {
    forall i | 0 <= i < |patterns|
      ensures MatchesAsWritten(patterns[i], name)
        <==> Lower(name) == Lower(patterns[i]) || Lower(name) == Lower(patterns[i]) + "\n"
    {
      AsWrittenIsLiteral(patterns[i], name);
    }
  }

  /** `_table_to_dataset_urn`, with the dataset named by its qualified
      name: none when either the bare name or the qualified name is
      ignored. */
  function TableDataset(t: PortGraph.TableRef, ignored: string -> bool, defaultDb: Option<string>, defaultSchema: Option<string>): (r: Option<string>)
    ensures r.None? <==> ignored(t.name) || ignored(PortGraph.Fqn(t, defaultDb, defaultSchema))
    ensures r.Some? ==> r.value == PortGraph.Fqn(t, defaultDb, defaultSchema)
  {
    var fqn := PortGraph.Fqn(t, defaultDb, defaultSchema);
    if ignored(t.name) || ignored(fqn) then None else Some(fqn)
  }

  /** An unqualified table with no defaults keeps its bare name and is
      dropped only when that name is ignored. */
  lemma UnqualifiedDataset(t: PortGraph.TableRef, ignored: string -> bool)
    requires !Truthy(t.db) && !Truthy(t.schema) && t.name != ""
    ensures TableDataset(t, ignored, None, None) == if ignored(t.name) then None else Some(t.name)
  {
    var parts := [OrElse(t.db, None), OrElse(t.schema, None), Some(t.name)];
    assert Present(parts) == [t.name] by {
      assert forall x :: x in Present(parts) <==> x == t.name;
      PresentSingle(parts, t.name);
    }
  }

  /** When no part is present but the last, only that part survives. */
  lemma PresentSingle(parts: seq<Option<string>>, x: string)
    requires |parts| == 3 && !Truthy(parts[0]) && !Truthy(parts[1]) && parts[2] == Some(x) && x != ""
    ensures Present(parts) == [x]
  {
    assert parts[1..][1..] == [Some(x)];
    assert Present([Some(x)]) == [x] by {
      assert [Some(x)][1..] == [];
    }
  }

  /* ---------------- job custom properties ---------------- */

  datatype PropsConfig = PropsConfig(customProperties: OMap<string, string>, attachText: bool, maxSnippetChars: int)

  const PreviewLimit := 4000
  const SnippetSeparator := "\n\n-- ---\n\n"

  /** Python's `s[:n]`: a negative `n` counts from the end. */
  function SliceTo(s: string, n: int): (r: string)
    ensures |r| == if n >= 0 then Min(n, |s|) else Max(|s| + n, 0)
    ensures r == s[..|r|]
  {
    if n >= 0 then s[..Min(n, |s|)] else s[..Max(|s| + n, 0)]
  }

  /** The snippets, each cut to the configured length, joined. */
  function SnippetText(snippets: seq<string>, maxChars: int): string {
    Join(seq(|snippets|, i requires 0 <= i < |snippets| => SliceTo(snippets[i], maxChars)), SnippetSeparator)
  }

  const SnippetCountKey := "sql_snippet_count"
  const ExpressionCountKey := "expression_count"
  const DigestKey := "sql_snippets_sha256"
  const PreviewKey := "sql_snippets_preview"

  /** Two stores in a row, for every key at once. */
  function PutTwo(m: OMap<string, string>, k1: string, v1: string, k2: string, v2: string): (r: OMap<string, string>)
    requires k1 != k2
    ensures Valid(m) ==> Valid(r)
    ensures forall k :: Get(r, k) == if k == k1 then Some(v1) else if k == k2 then Some(v2) else Get(m, k)
  {
    PutFacts(m, k1, v1);
    PutFacts(Put(m, k1, v1), k2, v2);
    Put(Put(m, k1, v1), k2, v2)
  }

  /** What a store does, for every key at once. */
  lemma PutFacts(m: OMap<string, string>, k: string, v: string)
    ensures Valid(m) ==> Valid(Put(m, k, v))
    ensures forall k' :: Get(Put(m, k, v), k') == if k' == k then Some(v) else Get(m, k')
  {
    if Valid(m) { PutValid(m, k, v); }
    forall k' ensures Get(Put(m, k, v), k') == if k' == k then Some(v) else Get(m, k') {
      PutGet(m, k, v, k');
    }
  }

  /** The joined snippets' first 4000 characters. */
  function Preview(joined: string): (r: string)
    ensures |r| <= PreviewLimit && StartsWith(joined, r)
    ensures |joined| <= PreviewLimit ==> r == joined
  {
    joined[..Min(|joined|, PreviewLimit)]
  }

  /** `_job_custom_props`: the configured properties, the two counts, and,
      when transformation text is attached and there are snippets, a
      digest of the joined text and its first 4000 characters. */
  function JobCustomProps(cfg: PropsConfig, snippets: seq<string>, expressions: seq<string>, digest: string -> string): (props: OMap<string, string>)
    ensures Valid(cfg.customProperties) ==> Valid(props)
    ensures Get(props, SnippetCountKey) == Some(NatToString(|snippets|))
    ensures Get(props, ExpressionCountKey) == Some(NatToString(|expressions|))
    ensures cfg.attachText && snippets != [] ==>
      Get(props, DigestKey) == Some(digest(SnippetText(snippets, cfg.maxSnippetChars)))
    ensures cfg.attachText && snippets != [] ==>
      Get(props, PreviewKey) == Some(Preview(SnippetText(snippets, cfg.maxSnippetChars)))
    ensures !(cfg.attachText && snippets != []) ==>
      Get(props, DigestKey) == Get(cfg.customProperties, DigestKey) && Get(props, PreviewKey) == Get(cfg.customProperties, PreviewKey)
    ensures forall k :: k != SnippetCountKey && k != ExpressionCountKey && k != DigestKey && k != PreviewKey ==>
      Get(props, k) == Get(cfg.customProperties, k)
  {
    var counted := PutTwo(cfg.customProperties, SnippetCountKey, NatToString(|snippets|), ExpressionCountKey, NatToString(|expressions|));
    if cfg.attachText && snippets != [] then
      var joined := SnippetText(snippets, cfg.maxSnippetChars);
      PutTwo(counted, DigestKey, digest(joined), PreviewKey, Preview(joined))
    else counted
  }

  /** The preview is the start of the joined text and never longer than
      4000 characters; one short snippet under a large cap is its own
      preview. */
  lemma PreviewBounds(cfg: PropsConfig, snippets: seq<string>, expressions: seq<string>, digest: string -> string)
    requires cfg.attachText && snippets != []
    ensures |Get(JobCustomProps(cfg, snippets, expressions, digest), PreviewKey).value| <= PreviewLimit
    ensures StartsWith(SnippetText(snippets, cfg.maxSnippetChars), Get(JobCustomProps(cfg, snippets, expressions, digest), PreviewKey).value)
    ensures |snippets| == 1 && |snippets[0]| <= PreviewLimit && |snippets[0]| <= cfg.maxSnippetChars ==>
      Get(JobCustomProps(cfg, snippets, expressions, digest), PreviewKey) == Some(snippets[0])
  {
    if |snippets| == 1 && |snippets[0]| <= cfg.maxSnippetChars {
      var cut := seq(|snippets|, i requires 0 <= i < |snippets| => SliceTo(snippets[i], cfg.maxSnippetChars));
      assert SliceTo(snippets[0], cfg.maxSnippetChars) == snippets[0];
      assert cut == [snippets[0]];
      assert SnippetText(snippets, cfg.maxSnippetChars) == snippets[0];
    }
  }

  /* ---------------- column lineage of a target ---------------- */

  const ExpressionOperation := "INFORMATICA_EXPRESSION"
  const DefaultMaxHops := 2000

  /** A fine-grained mapping: upstream (dataset, field) pairs to one
      downstream (dataset, field). */
  datatype FieldMapping = FieldMapping(operation: string, upstreams: set<(string, string)>, downstream: (string, string))

  /** Instance to dataset for the instances whose table is not ignored. */
  function InstanceDatasets(tables: map<string, PortGraph.TableRef>, ignored: string -> bool, defaultDb: Option<string>, defaultSchema: Option<string>): (r: map<string, string>)
    ensures forall inst :: inst in r <==> inst in tables && TableDataset(tables[inst], ignored, defaultDb, defaultSchema).Some?
    ensures forall inst :: inst in r ==> r[inst] == PortGraph.Fqn(tables[inst], defaultDb, defaultSchema)
  {
    map inst | inst in tables && TableDataset(tables[inst], ignored, defaultDb, defaultSchema).Some?
      :: TableDataset(tables[inst], ignored, defaultDb, defaultSchema).value
  }

  /** A source pair `x` stands for the upstream field `u`. */
  predicate FieldOf(sourceDatasets: map<string, string>, x: PortGraph.PortId, u: (string, string)) {
    x.0 in sourceDatasets && u == (sourceDatasets[x.0], x.1)
  }

  /** The resolved source pairs whose instance has a dataset, as fields of
      that dataset; pairs of ignored instances are skipped. */
  function UpstreamFields(resolved: set<PortGraph.PortId>, sourceDatasets: map<string, string>): (r: set<(string, string)>)
    ensures forall u :: u in r <==> exists x :: x in resolved && FieldOf(sourceDatasets, x, u)
  {
    set x | x in resolved && x.0 in sourceDatasets :: (sourceDatasets[x.0], x.1)
  }

  /** `u` is a field of a source dataset that the search from `start`
      can reach. */
  ghost predicate ReachedField(m: PortGraph.Mapping, start: PortGraph.PortId, sourceDatasets: map<string, string>, u: (string, string)) {
    exists x: PortGraph.PortId :: x.0 in m.sources && FieldOf(sourceDatasets, x, u) && PortGraph.Reaches(m, start, x)
  }

  /** The search from `start` cannot hit its cut-off: fewer pairs can ever
      be pushed than the hop limit allows. */
  predicate WithinHops(m: PortGraph.Mapping, start: PortGraph.PortId) {
    |PortGraph.Universe(m, start)| <= DefaultMaxHops
  }

  /** Some source field feeds port `p`. */
  ghost predicate Fed(m: PortGraph.Mapping, p: PortGraph.PortId, sourceDatasets: map<string, string>) {
    p in m.ports && exists u :: ReachedField(m, p, sourceDatasets, u)
  }

  /** The fields of the target instance that some source field feeds. */
  ghost function FedFields(m: PortGraph.Mapping, targetInstance: string, sourceDatasets: map<string, string>): (r: set<string>)
    ensures forall g :: g in r <==> Fed(m, (targetInstance, g), sourceDatasets)
  {
    var r := set p | p in m.ports && p.0 == targetInstance && Fed(m, p, sourceDatasets) :: p.1;
    assert forall g :: Fed(m, (targetInstance, g), sourceDatasets) ==> (targetInstance, g).1 in r;
    r
  }

  /** A mapping emitted for port `field` of the target instance: its
      upstreams are source fields the search reaches from that port. */
  ghost predicate Justified(m: PortGraph.Mapping, targetInstance: string, targetDataset: string,
                            sourceDatasets: map<string, string>, f: FieldMapping, field: string) {
    (targetInstance, field) in m.ports
    && f.operation == ExpressionOperation
    && f.downstream == (targetDataset, field)
    && f.upstreams != {}
    && forall u :: u in f.upstreams ==> ReachedField(m, (targetInstance, field), sourceDatasets, u)
  }

  /** A port of the target instance that a source field feeds, and whose
      search stays within the hop limit, has a mapping that carries every
      source field it reaches. */
  ghost predicate Covered(m: PortGraph.Mapping, targetInstance: string, targetDataset: string,
                          sourceDatasets: map<string, string>, fine: seq<FieldMapping>, field: string) {
    Fed(m, (targetInstance, field), sourceDatasets) && WithinHops(m, (targetInstance, field))
    ==> exists k :: 0 <= k < |fine| && fine[k].downstream == (targetDataset, field)
          && forall u :: u in fine[k].upstreams <==> ReachedField(m, (targetInstance, field), sourceDatasets, u)
  }

  /** Every mapping is justified by its own field, and no field has two. */
  ghost predicate Emitted(m: PortGraph.Mapping, targetInstance: string, targetDataset: string,
                          sourceDatasets: map<string, string>, fine: seq<FieldMapping>) {
    (forall k :: 0 <= k < |fine| ==> Justified(m, targetInstance, targetDataset, sourceDatasets, fine[k], fine[k].downstream.1))
    && (forall a, b :: 0 <= a < b < |fine| ==> fine[a].downstream != fine[b].downstream)
  }

  lemma EmittedAppend(m: PortGraph.Mapping, targetInstance: string, targetDataset: string,
                      sourceDatasets: map<string, string>, fine: seq<FieldMapping>, f: FieldMapping)
    requires Emitted(m, targetInstance, targetDataset, sourceDatasets, fine)
    requires Justified(m, targetInstance, targetDataset, sourceDatasets, f, f.downstream.1)
    requires forall k :: 0 <= k < |fine| ==> fine[k].downstream != f.downstream
    ensures Emitted(m, targetInstance, targetDataset, sourceDatasets, fine + [f])
  {
    var fine' := fine + [f];
    forall k | 0 <= k < |fine'|
      ensures Justified(m, targetInstance, targetDataset, sourceDatasets, fine'[k], fine'[k].downstream.1)
    {
      if k < |fine| { assert fine'[k] == fine[k]; }
    }
  }

  /** Appending a mapping keeps every field covered that was covered. */
  lemma CoveredAppend(m: PortGraph.Mapping, targetInstance: string, targetDataset: string,
                      sourceDatasets: map<string, string>, fine: seq<FieldMapping>, f: FieldMapping, fields: seq<string>)
    requires forall g :: g in fields ==> Covered(m, targetInstance, targetDataset, sourceDatasets, fine, g)
    ensures forall g :: g in fields ==> Covered(m, targetInstance, targetDataset, sourceDatasets, fine + [f], g)
  {
    forall g | g in fields
      ensures Covered(m, targetInstance, targetDataset, sourceDatasets, fine + [f], g)
    {
      if Fed(m, (targetInstance, g), sourceDatasets) && WithinHops(m, (targetInstance, g)) {
        var k :| 0 <= k < |fine| && fine[k].downstream == (targetDataset, g)
          && forall u :: u in fine[k].upstreams <==> ReachedField(m, (targetInstance, g), sourceDatasets, u);
        assert (fine + [f])[k] == fine[k];
      }
    }
  }

  /** The body of the loop for one port of the target instance: search
      upstream of the port and, when the search reaches a field of some
      source dataset, the mapping of those fields into the port. */
  method MapField(m: PortGraph.Mapping, targetInstance: string, targetDataset: string, sourceDatasets: map<string, string>,
                  field: string)
    returns (o: Option<FieldMapping>)
    requires (targetInstance, field) in m.ports
    ensures o.Some? ==> o.value.downstream == (targetDataset, field)
    ensures o.Some? ==> Justified(m, targetInstance, targetDataset, sourceDatasets, o.value, field)
    ensures WithinHops(m, (targetInstance, field)) && Fed(m, (targetInstance, field), sourceDatasets) ==>
      o.Some? && forall u :: u in o.value.upstreams <==> ReachedField(m, (targetInstance, field), sourceDatasets, u)
  {
    var resolved, visited := PortGraph.ResolveUpstreamSourceFields(m, targetInstance, field, DefaultMaxHops);
    var ups := UpstreamFields(resolved, sourceDatasets);
    if WithinHops(m, (targetInstance, field)) {
      ResolvedExact(m, (targetInstance, field), sourceDatasets, resolved, visited);
    }
    if ups != {} {
      JustifiedFrom(m, targetInstance, targetDataset, sourceDatasets, field, resolved, visited);
      o := Some(FieldMapping(ExpressionOperation, ups, (targetDataset, field)));
    } else {
      o := None;
    }
  }

  /** The loop over the ports of one target instance: a mapping per port
      whose resolved upstreams reach some source dataset, at most one per
      field, and one for every fed port whose search stays within the hop
      limit; so there are as many mappings as fed fields when no search is
      cut off.  The order of the ports is left open. */
  method TargetFieldMappings(m: PortGraph.Mapping, targetInstance: string, targetDataset: string, sourceDatasets: map<string, string>)
    returns (fine: seq<FieldMapping>)
    ensures forall k :: 0 <= k < |fine| ==> Justified(m, targetInstance, targetDataset, sourceDatasets, fine[k], fine[k].downstream.1)
    ensures forall a, b :: 0 <= a < b < |fine| ==> fine[a].downstream != fine[b].downstream
    ensures forall field :: Covered(m, targetInstance, targetDataset, sourceDatasets, fine, field)
    ensures |fine| <= |FedFields(m, targetInstance, sourceDatasets)|
    ensures (forall p :: p in m.ports && p.0 == targetInstance ==> WithinHops(m, p)) ==>
      |fine| == |FedFields(m, targetInstance, sourceDatasets)|
  {
    var fields := SetToSeq(set p | p in m.ports && p.0 == targetInstance :: p.1);
    fine := [];
    for i := 0 to |fields|
      invariant forall k :: 0 <= k < |fine| ==> fine[k].downstream.1 in fields[..i]
      invariant Emitted(m, targetInstance, targetDataset, sourceDatasets, fine)
      invariant forall g :: g in fields[..i] ==> Covered(m, targetInstance, targetDataset, sourceDatasets, fine, g)
    {
      var field := fields[i];
      assert (targetInstance, field) in m.ports by { assert field in Elems(fields); }
      assert fields[..i + 1] == fields[..i] + [field];
      var o := MapField(m, targetInstance, targetDataset, sourceDatasets, field);
      if o.Some? {
        assert field !in fields[..i];
        EmittedAppend(m, targetInstance, targetDataset, sourceDatasets, fine, o.value);
        CoveredAppend(m, targetInstance, targetDataset, sourceDatasets, fine, o.value, fields[..i]);
        fine := fine + [o.value];
        assert fine[|fine| - 1] == o.value;
      }
    }
    assert fields[..|fields|] == fields;
    forall field ensures Covered(m, targetInstance, targetDataset, sourceDatasets, fine, field) {
      if (targetInstance, field) in m.ports {
        assert field in Elems(fields);
      }
    }
    FedCount(m, targetInstance, targetDataset, sourceDatasets, fine);
  }

  /** The fields the mappings go into, in order. */
  function MappedFields(fine: seq<FieldMapping>): (r: seq<string>)
    ensures |r| == |fine| && forall k :: 0 <= k < |fine| ==> r[k] == fine[k].downstream.1
  {
    seq(|fine|, k requires 0 <= k < |fine| => fine[k].downstream.1)
  }

  /** Emitted mappings go into distinct fed fields. */
  lemma MappedAreFed(m: PortGraph.Mapping, targetInstance: string, targetDataset: string,
                     sourceDatasets: map<string, string>, fine: seq<FieldMapping>)
    requires Emitted(m, targetInstance, targetDataset, sourceDatasets, fine)
    ensures Distinct(MappedFields(fine))
    ensures Elems(MappedFields(fine)) <= FedFields(m, targetInstance, sourceDatasets)
  {
    var ds := MappedFields(fine);
    forall a, b | 0 <= a < b < |ds| ensures ds[a] != ds[b] {
      assert fine[a].downstream.0 == targetDataset == fine[b].downstream.0;
    }
    forall g | g in Elems(ds) ensures g in FedFields(m, targetInstance, sourceDatasets) {
      var k :| 0 <= k < |ds| && ds[k] == g;
      var f := fine[k];
      assert Justified(m, targetInstance, targetDataset, sourceDatasets, f, g);
      var u :| u in f.upstreams;
      assert ReachedField(m, (targetInstance, g), sourceDatasets, u);
    }
  }

  /** When every search stays within the hop limit, every fed field has
      its mapping. */
  lemma FedAreMapped(m: PortGraph.Mapping, targetInstance: string, targetDataset: string,
                     sourceDatasets: map<string, string>, fine: seq<FieldMapping>)
    requires forall field :: Covered(m, targetInstance, targetDataset, sourceDatasets, fine, field)
    requires forall p :: p in m.ports && p.0 == targetInstance ==> WithinHops(m, p)
    ensures FedFields(m, targetInstance, sourceDatasets) <= Elems(MappedFields(fine))
  {
    var ds := MappedFields(fine);
    forall g | g in FedFields(m, targetInstance, sourceDatasets) ensures g in Elems(ds) {
      assert Covered(m, targetInstance, targetDataset, sourceDatasets, fine, g);
      var k :| 0 <= k < |fine| && fine[k].downstream == (targetDataset, g)
        && forall u :: u in fine[k].upstreams <==> ReachedField(m, (targetInstance, g), sourceDatasets, u);
      assert ds[k] == g;
    }
  }

  /** The mappings name distinct fed fields, and all of them when every
      search stays within the hop limit. */
  lemma FedCount(m: PortGraph.Mapping, targetInstance: string, targetDataset: string,
                 sourceDatasets: map<string, string>, fine: seq<FieldMapping>)
    requires Emitted(m, targetInstance, targetDataset, sourceDatasets, fine)
    requires forall field :: Covered(m, targetInstance, targetDataset, sourceDatasets, fine, field)
    ensures |fine| <= |FedFields(m, targetInstance, sourceDatasets)|
    ensures (forall p :: p in m.ports && p.0 == targetInstance ==> WithinHops(m, p)) ==>
      |fine| == |FedFields(m, targetInstance, sourceDatasets)|
  {
    var ds := MappedFields(fine);
    MappedAreFed(m, targetInstance, targetDataset, sourceDatasets, fine);
    ElemsCard(ds);
    SubsetCardinality(Elems(ds), FedFields(m, targetInstance, sourceDatasets));
    if forall p :: p in m.ports && p.0 == targetInstance ==> WithinHops(m, p) {
      FedAreMapped(m, targetInstance, targetDataset, sourceDatasets, fine);
      assert Elems(ds) == FedFields(m, targetInstance, sourceDatasets);
    }
  }

  /** A search that visits everything reachable resolves to exactly the
      source fields reached. */
  lemma ResolvedExact(m: PortGraph.Mapping, start: PortGraph.PortId, sourceDatasets: map<string, string>,
                      resolved: set<PortGraph.PortId>, visited: set<PortGraph.PortId>)
    requires forall x :: x in resolved <==> x in visited && x.0 in m.sources
    requires forall x :: x in visited <==> PortGraph.Reaches(m, start, x)
    ensures forall u :: u in UpstreamFields(resolved, sourceDatasets) <==> ReachedField(m, start, sourceDatasets, u)
  {
    forall u ensures u in UpstreamFields(resolved, sourceDatasets) <==> ReachedField(m, start, sourceDatasets, u) {
      if ReachedField(m, start, sourceDatasets, u) {
        var x: PortGraph.PortId :| x.0 in m.sources && FieldOf(sourceDatasets, x, u) && PortGraph.Reaches(m, start, x);
        assert x in resolved;
      }
    }
  }

  /** The upstream fields of a resolved search justify the mapping. */
  lemma JustifiedFrom(m: PortGraph.Mapping, targetInstance: string, targetDataset: string, sourceDatasets: map<string, string>,
                      field: string, resolved: set<PortGraph.PortId>, visited: set<PortGraph.PortId>)
    requires (targetInstance, field) in m.ports
    requires forall x :: x in resolved <==> x in visited && x.0 in m.sources
    requires forall x :: x in visited ==> PortGraph.Reaches(m, (targetInstance, field), x)
    requires UpstreamFields(resolved, sourceDatasets) != {}
    ensures Justified(m, targetInstance, targetDataset, sourceDatasets,
                      FieldMapping(ExpressionOperation, UpstreamFields(resolved, sourceDatasets), (targetDataset, field)), field)
  {
    forall u | u in UpstreamFields(resolved, sourceDatasets)
      ensures ReachedField(m, (targetInstance, field), sourceDatasets, u)
    {
      var x :| x in resolved && FieldOf(sourceDatasets, x, u);
      assert x in visited;
    }
  }
}
