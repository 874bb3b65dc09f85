# Verified model of the DataHub lineage extractors

This project models, in Dafny, the pure lineage logic of a set of DataHub
ingestion connectors: Informatica PowerCenter, Oracle PL/SQL, SSIS,
AutoSys JIL, Ab Initio and Essbase. It also proves properties of that
model. Each connector reads metadata that has already been extracted (an
XML export, procedure source lines, a calc script, JIL text) and works out
which datasets, columns and jobs feed which. The model keeps exactly that
decision logic. It leaves out the plumbing around it: XML walking, SQL
parsing, HTTP and database clients, and DataHub emission.

One module per file:

- `infa_model`, `infa_sql`, `infa_lineage`, `infa_edges`, `infa_order`,
  `infa_emit` cover the Informatica column-lineage engine
  (`informatica_lineage.py`):
  - transformation types and records;
  - column-to-table resolution of a Source Qualifier's SQL override, over
    an already parsed SELECT;
  - detection of stored procedure calls;
  - the connector graph and the recursive upstream trace with its shared
    visited set;
  - the search for the source behind an instance's port;
  - the column lineage edges;
  - Kahn ordering of instances and the session order of a workflow;
  - per-target confidence and upstream aggregation in the emitter.
- `port_graph` is the port-graph tracer of the XML extractor:
  - table references;
  - the identifier-token heuristic for port expressions;
  - the connector index;
  - the bounded depth-first search for the source fields behind a target
    port.
- `infa_source` is the pmrep-based source:
  - ignore patterns for placeholder tables;
  - dataset resolution;
  - a job's custom properties;
  - the per-port column lineage of a target instance.
- `essbase_models`, `essbase_schema`, `calc_parser`, `essbase_lineage`
  cover the Essbase side:
  - the outline model and its predicates;
  - the API-value mappers;
  - member extraction with its cap and parent-child links;
  - the schema fields;
  - the calc-script parser (variables, the FIX/ENDFIX stack,
    first-match classification, member references);
  - the lineage synthesis for formulas, consolidations, calc scripts,
    FIX filters and load rules.
- `oracle_proc` and `oracle_runner` model the PL/SQL stored-procedure
  parser and the operational Oracle runner:
  - DML classification;
  - the read/write split;
  - statement collection;
  - substep ordering;
  - the two table-name normalisers;
  - one V$SQL polling cycle;
  - the mappings derived from parsed procedures.
- `ssis` covers the SSIS extractor: task naming, the two qualifiers, and
  the parsed and fallback table lists.
- `autosys_jil` is the JIL line parser, condition dependencies, and the
  merge of several exports.
- `abinitio` covers the DML and XFR line parsers and the graph I/O
  mapping.
- `paths` is the order-preserving path expansion.
- `basics`, `text`, `ordered_map` and `scan` are shared helpers:
  - optional values and duplicate-free lists;
  - ASCII text operations;
  - the insertion-ordered dictionary;
  - regular expressions as hand-written scanners.

Every regular expression is a hand-written scanner. For the one pattern it
models, the scanner gives the match that Python's backtracking engine
finds.

Several things the programs take from their surroundings are parameters:
- the DataHub URN builders;
- the SHA-256 digest of the SQL snippets;
- the file system of the path expansion (existence, resolution, listing);
- the Essbase member-detail call;
- the rows fetched from V$SQL;
- the polling cursor, which the runner starts from the clock.

Confidence scores are integer hundredths: 100 for 1.0 and 95 for 0.95.
Times are whole milliseconds.

Where the programs iterate over a Python `set`, the model leaves the order
open: it picks elements with `:|`, so every property holds for every
order.

The model follows the code as written. That includes four places where the
code does not do what its comments or tests describe:
- the `SET` variable pattern, which needs an `=`;
- the `DATACOPY` source class `[^T]`;
- the LIKE-to-regex translation;
- the `DELETE FROM` target capture.

Lemmas state each of these gaps. Two of them are evidently defects, and
they are listed under "## Findings" with a corrected definition beside
the as-written one: the LIKE-to-regex translation and the `DELETE FROM`
target capture. The `SET` pattern and the `DATACOPY` class are not:
they are regular expressions that match a narrower language than the
comments suggest, and nothing in the program shows a different intent.
"## Findings" also lists a third defect, the statement-collection loop
of the stored-procedure parser.

## Model

| member | source | states |
|---|---|---|
| Paths.PathLessIrreflexive | src/datahub_custom_sources/utils/paths.py:48 | no path sorts before itself, so the `sorted` order of hits is strict |
| Paths.PathLessAsymmetric | src/datahub_custom_sources/utils/paths.py:48 | two paths are never each before the other |
| Paths.PathLessTransitive | src/datahub_custom_sources/utils/paths.py:48 | the order of paths is transitive |
| Paths.PathLessTotal | src/datahub_custom_sources/utils/paths.py:48 | any two different paths are ordered one way or the other, so sorting has a single answer |
| Paths.DirectoryFirst | src/datahub_custom_sources/utils/paths.py:48 | a directory sorts before every file under it |
| Paths.PartsBeforeLongerParts | src/datahub_custom_sources/utils/paths.py:48 | paths compare part by part: `a/b` sorts before `a-c` although `-` is below `/` as a character |
| Paths.SortPaths | src/datahub_custom_sources/utils/paths.py:48 | `sorted(rglob(...))`: the result is strictly ascending and holds exactly the hits |
| Paths.SortedPathsUnique | src/datahub_custom_sources/utils/paths.py:48 | two strictly ascending lists with the same elements are equal |
| Paths.HitsOrderIrrelevant | src/datahub_custom_sources/utils/paths.py:48 | the sorted hits depend only on which files the walk finds, not on the order it reports them |
| Paths.AddEachIsFirstOccurrences | src/datahub_custom_sources/utils/paths.py:31-38 | the `_add` loop keeps exactly the paths that no earlier offered path resolves like, as given, and `seen` ends as the set of every offered path's resolved form |
| Paths.ExpandIsFirstOccurrences | src/datahub_custom_sources/utils/paths.py:31-51 | `expand_paths` equals the first occurrences, by resolved form, of the explicit paths followed by the per-directory, per-extension sorted hits |
| Paths.FirstOccurrencesResolved | src/datahub_custom_sources/utils/paths.py:34-38 | the kept paths resolve to exactly the files the offered paths resolve to |
| Paths.FirstOccurrencesDistinct | src/datahub_custom_sources/utils/paths.py:34-38 | no two kept paths resolve to the same file |
| Paths.FirstOccurrencesFirst | src/datahub_custom_sources/utils/paths.py:34-38 | every kept path is, unresolved, an offered path that no earlier offered path resolves like |
| Paths.FirstOccurrencesPrefix | src/datahub_custom_sources/utils/paths.py:40-49 | offering further paths only appends to the list kept so far |
| Paths.FirstOccurrencesAllNew | src/datahub_custom_sources/utils/paths.py:34-38 | paths resolving to pairwise different files are all kept, in order |
| Paths.ExpandDeduplicates | src/datahub_custom_sources/utils/paths.py:31-38 | no two results resolve to the same file, and each result is the first candidate resolving to its file, returned unresolved |
| Paths.ExpandCovers | src/datahub_custom_sources/utils/paths.py:40-49 | every explicit path and every hit is represented by a result that resolves to the same file |
| Paths.ExplicitFirst | src/datahub_custom_sources/utils/paths.py:40-41 | the expansion of the explicit paths alone is a prefix of the result, and explicit paths that resolve to distinct files are the first entries, in the given order |
| Paths.ScanHitsAppend | src/datahub_custom_sources/utils/paths.py:43-49 | the hits of two runs of scan directories are those of each run, one after the other |
| Paths.MissingDirectoryIgnored | src/datahub_custom_sources/utils/paths.py:45-46 | a scan directory that does not exist changes nothing, wherever it stands among the others |
| Paths.ScanOrder | src/datahub_custom_sources/utils/paths.py:43-49 | directories are scanned in order: a further directory only appends to the result |
| Paths.ExtensionOrder | src/datahub_custom_sources/utils/paths.py:47-49 | within an existing directory, each extension's hits follow those of the earlier extensions, in sorted order |
| Paths.InsertPath | src/datahub_custom_sources/utils/paths.py:48 | inserting a new path into a sorted list keeps it sorted and adds exactly that path |
| AbInitio.LeadingAssignment | src/datahub_custom_sources/extractors/abinitio.py:34 | a value is read only when the line starts with a `[A-Za-z_][\w-]*` name; the name it returns is a prefix of the line |
| AbInitio.AssignmentFound | src/datahub_custom_sources/extractors/abinitio.py:34 | whatever is read is a match of `^NAME\s*SEP\s*VALUE+`, with the value the longest run of value characters after the separator |
| AbInitio.AssignmentUnique | src/datahub_custom_sources/extractors/abinitio.py:34 | every match of that shape is the one read: the pattern has a single way to match |
| AbInitio.DmlMatchSound | src/datahub_custom_sources/extractors/abinitio.py:34-37 | a field read from a line matches the DML shape: a name, a colon, and the longest run of type characters, stripped |
| AbInitio.DmlMatchComplete | src/datahub_custom_sources/extractors/abinitio.py:34-37 | a line matching the DML shape gives that field |
| AbInitio.DmlMatchShape | src/datahub_custom_sources/extractors/abinitio.py:34-37 | a line gives a field if and only if it matches the DML shape with that name and stripped type |
| AbInitio.DmlLineRoundTrip | src/datahub_custom_sources/extractors/abinitio.py:30-37 | the line `name: type` declares exactly the field (name, type) |
| AbInitio.DmlFieldsAppend | src/datahub_custom_sources/extractors/abinitio.py:30-37 | the fields of two runs of lines are those of each run, in line order |
| AbInitio.DmlFieldsOfLine | src/datahub_custom_sources/extractors/abinitio.py:30-37 | a line contributes one field when it matches and none otherwise (blank, `#` and non-matching lines are skipped) |
| AbInitio.ParseDml | src/datahub_custom_sources/extractors/abinitio.py:26-40 | every field of the schema has a well-formed name and a stripped type |
| AbInitio.SchemaNameIsStem | src/datahub_custom_sources/extractors/abinitio.py:39-40 | the schema of `dir/base.ext` is named `base`, the file stem |
| AbInitio.XfrMatchSound | src/datahub_custom_sources/extractors/abinitio.py:55-57 | a pair read from a line matches `^TARGET\s*=\s*[^;]+`, with the source the stripped text up to the first `;` |
| AbInitio.XfrMatchComplete | src/datahub_custom_sources/extractors/abinitio.py:55-57 | a line matching the XFR shape gives that (source, target) pair |
| AbInitio.XfrMatchShape | src/datahub_custom_sources/extractors/abinitio.py:55-57 | a line gives a pair if and only if it matches the XFR shape |
| AbInitio.XfrLineRoundTrip | src/datahub_custom_sources/extractors/abinitio.py:51-57 | the line `target = source;` gives the pair (source, target), in that reversed order |
| AbInitio.XfrSourceStopsAtSemicolon | src/datahub_custom_sources/extractors/abinitio.py:55-57 | the source ends at the first `;`, whatever follows it |
| AbInitio.DottedTargetNeverMatches | src/datahub_custom_sources/extractors/abinitio.py:55 | a target followed by a dot, such as `out.x = in.x`, never matches |
| AbInitio.XfrMappingsAppend | src/datahub_custom_sources/extractors/abinitio.py:51-57 | the pairs of two runs of lines are those of each run, in line order |
| AbInitio.XfrMappingsOfLine | src/datahub_custom_sources/extractors/abinitio.py:51-57 | a line contributes one pair when it matches and none otherwise |
| AbInitio.ListField | src/datahub_custom_sources/extractors/abinitio.py:75-79 | `inputs`/`outputs` are kept when they are lists and replaced by `[]` when missing or not lists |
| AbInitio.LoadEntriesGet | src/datahub_custom_sources/extractors/abinitio.py:72-80 | after one document, a graph maps to its last object payload there, else to what it mapped to before; payloads that are not objects are skipped |
| AbInitio.LoadIoMappingGet | src/datahub_custom_sources/extractors/abinitio.py:67-81 | the mapping is a dictionary, and each graph maps to its last object payload across the documents in order; documents that are not objects are skipped |
| AbInitio.SingleGraph | src/datahub_custom_sources/extractors/abinitio.py:72-80 | a single object entry records its list-valued inputs and outputs, and `[]` for either when it is not a list |
| AbInitio.AssignmentOf | src/datahub_custom_sources/extractors/abinitio.py:34 | a line laid out as name, whitespace, separator, value and a rest that does not continue the value gives that name and value |
| AbInitio.NameStartsLine | src/datahub_custom_sources/extractors/abinitio.py:32-33 | a line that starts with a name is neither blank nor a `#` comment |
| AbInitio.DmlMatch | src/datahub_custom_sources/extractors/abinitio.py:34-37 | a field read from a line has a well-formed name |
| AbInitio.DmlMatchOf | src/datahub_custom_sources/extractors/abinitio.py:34-37 | the stripped line `name: type` declares the field (name, type) |
| AbInitio.Stem | src/datahub_custom_sources/extractors/abinitio.py:39 | the file stem is a prefix of the file name |
| AbInitio.XfrMatch | src/datahub_custom_sources/extractors/abinitio.py:55-57 | a pair read from a line has a well-formed target |
| AutosysJil.StatusCallAt | src/dh_infa_autosys/extractors/autosys_jil.py:28 | a status call read at a position ends inside the text and names a non-empty job without a closing parenthesis |
| AutosysJil.UpstreamJobNames | src/dh_infa_autosys/extractors/autosys_jil.py:18-28 | a job with an empty or missing condition has no upstream names; otherwise the names are exactly those the `x(NAME)` search finds |
| AutosysJil.UpstreamNamesShape | src/dh_infa_autosys/extractors/autosys_jil.py:28 | every upstream name is non-empty and holds no `)` |
| AutosysJil.UpstreamOfOneCall | src/dh_infa_autosys/extractors/autosys_jil.py:18-28 | the condition `s(NAME)` names exactly the job NAME |
| AutosysJil.StatusCallAtSite | src/dh_infa_autosys/extractors/autosys_jil.py:28 | the pattern matches at a position exactly when a word-initial letter, `(`, a non-empty name and the first `)` follow, and it reads that name |
| AutosysJil.SiteCloseShared | src/dh_infa_autosys/extractors/autosys_jil.py:28 | two status calls that overlap close at the same parenthesis |
| AutosysJil.StatusScan | src/dh_infa_autosys/extractors/autosys_jil.py:28 | from a position no earlier call straddles, the search finds exactly the names of the calls that no earlier call swallows |
| AutosysJil.UpstreamJobNamesSpec | src/dh_infa_autosys/extractors/autosys_jil.py:18-28 | a name is upstream if and only if the condition holds a status call with that name that is not inside an earlier call, as in `s(a(b))` giving only `a(b` |
| AutosysJil.NewJobConsistent | src/dh_infa_autosys/extractors/autosys_jil.py:9-16 | a new job has the given name, job type `command`, no box, command or condition, and no raw attributes |
| AutosysJil.RawFieldUpdate | src/dh_infa_autosys/extractors/autosys_jil.py:93-101 | storing a key changes only what that key reads |
| AutosysJil.Continue | src/dh_infa_autosys/extractors/autosys_jil.py:80-88 | a line without a colon is appended to the command after a newline and to the condition after a space, whichever exist; no other attribute and not the name change |
| AutosysJil.Attribute | src/dh_infa_autosys/extractors/autosys_jil.py:90-91 | the key of an attribute line is lower case |
| AutosysJil.SetAttribute | src/dh_infa_autosys/extractors/autosys_jil.py:90-101 | an attribute line stores its value under its lower-cased key, keeps the typed fields in step with the raw attributes and keeps the name |
| AutosysJil.Flush | src/dh_infa_autosys/extractors/autosys_jil.py:57-64 | a finished job is stored under its name and, when its box name is non-empty, added to that box, created on demand; nothing else changes, and the export stays well formed |
| AutosysJil.StepSound | src/dh_infa_autosys/extractors/autosys_jil.py:66-101 | each line keeps the export well formed and the open job's typed fields in step with its raw attributes |
| AutosysJil.RunSound | src/dh_infa_autosys/extractors/autosys_jil.py:66-101 | the same holds after any run of lines |
| AutosysJil.ParseJilTextWellFormed | src/dh_infa_autosys/extractors/autosys_jil.py:43-104 | a parsed export stores every job under its own name and lists in its boxes only jobs it holds |
| AutosysJil.RunWithinJob | src/dh_infa_autosys/extractors/autosys_jil.py:66-101 | until the next `insert_job:` line the export does not change and the open job keeps its name; with no job open every line is ignored |
| AutosysJil.NoJobsWithoutInsert | src/dh_infa_autosys/extractors/autosys_jil.py:43-104 | a text without an `insert_job:` line gives an empty export |
| AutosysJil.InsertJobFlushes | src/dh_infa_autosys/extractors/autosys_jil.py:71-75 | an `insert_job:` line stores the previous job and opens a new job named by the rest of the line |
| AutosysJil.InsertJobNameKeepsRest | src/dh_infa_autosys/extractors/autosys_jil.py:73 | the job name is everything after the first colon, stripped, so `insert_job: A job_type: c` names the job `A job_type: c` |
| AutosysJil.InsertJobSplit | src/dh_infa_autosys/extractors/autosys_jil.py:71-73 | `insert_job: REST` is an insert line that splits at its first colon into `insert_job` and ` REST` |
| AutosysJil.UpdateJobsGet | src/dh_infa_autosys/extractors/autosys_jil.py:113 | after the update a job name reads the later file's job when that file has it, and the earlier one otherwise |
| AutosysJil.UpdateJobsValid | src/dh_infa_autosys/extractors/autosys_jil.py:113 | the updated jobs are still a dictionary |
| AutosysJil.UnionBoxesGet | src/dh_infa_autosys/extractors/autosys_jil.py:114-115 | after the merge a box holds the union of its jobs in both exports and exists when it exists in either |
| AutosysJil.UnionBoxesValid | src/dh_infa_autosys/extractors/autosys_jil.py:114-115 | the merged boxes are still a dictionary |
| AutosysJil.MergeWellFormed | src/dh_infa_autosys/extractors/autosys_jil.py:112-115 | merging two well-formed exports gives a well-formed one in which the later file's jobs win and box memberships are unions |
| AutosysJil.ParseJilFilesWellFormed | src/dh_infa_autosys/extractors/autosys_jil.py:107-116 | the combined export of any sequence of files is well formed |
| OracleProc.ClassifyKey | src/datahub_custom_sources/extractors/oracle_stored_proc.py:137-150 | text starting with INSERT, UPDATE, DELETE or MERGE is that write, checked in that order; otherwise it is a SELECT INTO exactly when it holds both SELECT and INTO, and nothing when it holds neither a leading write keyword nor both words |
| OracleProc.KeyPrefix | src/datahub_custom_sources/extractors/oracle_stored_proc.py:137-150 | once a head starts with a write keyword, or holds SELECT and INTO, any continuation is classified the same |
| OracleProc.ClassifyByHead | src/datahub_custom_sources/extractors/oracle_stored_proc.py:137-150 | a statement whose first line decides the classification is classified as that line, whatever lines follow |
| OracleProc.DottedEnd | src/datahub_custom_sources/extractors/oracle_stored_proc.py:16 | `\w+(?:\.\w+)*` ends on a word character, takes only word characters and dots, and is not followed by a word character |
| OracleProc.QualifiedEnd | src/datahub_custom_sources/extractors/oracle_stored_proc.py:24 | `(?:(?:\w+\.){0,2})\w+` ends on a word character, takes only word characters and dots, and is followed by no word character |
| OracleProc.TableKeywordEnd | src/datahub_custom_sources/extractors/oracle_stored_proc.py:24 | FROM, JOIN, INTO, UPDATE or `MERGE\s+INTO` read at a position ends after it and inside the text |
| OracleProc.TableRefAt | src/datahub_custom_sources/extractors/oracle_stored_proc.py:24 | a table reference read at a position ends inside the text and starts with a word character |
| OracleProc.ExtractTablesFromSql | src/datahub_custom_sources/extractors/oracle_stored_proc.py:153-158 | the tables of a text are exactly the upper-cased references the table pattern finds |
| OracleProc.DmlKeywordEnd | src/datahub_custom_sources/extractors/oracle_stored_proc.py:16 | INSERT, UPDATE, DELETE or MERGE read at a position ends after it and inside the text |
| OracleProc.DmlTargetAt | src/datahub_custom_sources/extractors/oracle_stored_proc.py:15-18 | the target the DML pattern reads ends inside the text |
| OracleProc.ExecuteImmediateAt | src/datahub_custom_sources/extractors/oracle_stored_proc.py:27-30 | the dynamic SQL read after `EXECUTE IMMEDIATE` is non-empty and stops before the first `;` |
| OracleProc.CallNameAt | src/datahub_custom_sources/extractors/oracle_stored_proc.py:32 | a dotted name followed by optional whitespace and `(` is non-empty and ends inside the text |
| OracleProc.CallAt | src/datahub_custom_sources/extractors/oracle_stored_proc.py:31-34 | a call read at a position, after an optional CALL or EXECUTE, names something non-empty and ends inside the text |
| OracleProc.FindProcedureCalls | src/datahub_custom_sources/extractors/oracle_stored_proc.py:235-252 | the calls found never include the eight built-ins, and a name is found exactly when the call search yields it upper-cased |
| OracleProc.NoNameInsideCall | src/datahub_custom_sources/extractors/oracle_stored_proc.py:32 | no other dotted name starts inside a call |
| OracleProc.PrefixedSite | src/datahub_custom_sources/extractors/oracle_stored_proc.py:32 | after CALL or EXECUTE and whitespace, a name the call pattern reads is a call, and no other call starts in between |
| OracleProc.PrefixNoCall | src/datahub_custom_sources/extractors/oracle_stored_proc.py:32 | a letter word followed by whitespace and another word is not itself a call |
| OracleProc.CallAtSite | src/datahub_custom_sources/extractors/oracle_stored_proc.py:31-34 | where the call pattern matches, it reads exactly one call, and no other call starts before that call ends |
| OracleProc.NameSite | src/datahub_custom_sources/extractors/oracle_stored_proc.py:32 | the name the pattern reads at the start of a word, with or without a prefix, is a whole call and none starts before it |
| OracleProc.DirectSite | src/datahub_custom_sources/extractors/oracle_stored_proc.py:32 | a name read without a prefix at the start of a word is a whole call |
| OracleProc.NoCallNoSite | src/datahub_custom_sources/extractors/oracle_stored_proc.py:31-34 | where the call pattern fails, no call starts |
| OracleProc.CallScan | src/datahub_custom_sources/extractors/oracle_stored_proc.py:238 | from a position no call straddles, the search finds exactly the names of the calls that start there or later |
| OracleProc.MissStep | src/datahub_custom_sources/extractors/oracle_stored_proc.py:238 | a position where the pattern fails adds no name to the search |
| OracleProc.HitStep | src/datahub_custom_sources/extractors/oracle_stored_proc.py:238 | a position where the pattern reads a call adds its name, and the search resumes after the call |
| OracleProc.FindProcedureCallsSpec | src/datahub_custom_sources/extractors/oracle_stored_proc.py:235-252 | the calls of a source are the upper-cased names of its call sites, described without the search, minus the built-ins |
| OracleProc.SumIsCall | src/datahub_custom_sources/extractors/oracle_stored_proc.py:235-252 | any function-call syntax counts as a call, aggregates included: `SUM(` yields SUM |
| OracleProc.NvlIsNoCall | src/datahub_custom_sources/extractors/oracle_stored_proc.py:241-250 | a built-in is dropped: `NVL(` yields no call |
| OracleProc.ThreeLetterCalls | src/datahub_custom_sources/extractors/oracle_stored_proc.py:235-252 | a three-letter upper-case name then `(` yields that name unless it is a built-in |
| OracleProc.ThreeLetterCall | src/datahub_custom_sources/extractors/oracle_stored_proc.py:238 | the search over such a text finds exactly that name |
| OracleProc.Preview | src/datahub_custom_sources/extractors/oracle_stored_proc.py:199 | the preview is the first 500 characters of the text, or the whole text when it is shorter |
| OracleProc.ParseDmlStatement | src/datahub_custom_sources/extractors/oracle_stored_proc.py:161-202 | a substep exists exactly when the text is classified; it carries that operation, the order and line given, disjoint read and written tables, reads only tables the text references, writes nothing for a SELECT INTO, and previews the text |
| OracleProc.DmlTablesSplit | src/datahub_custom_sources/extractors/oracle_stored_proc.py:177-190 | a write whose target the pattern finds writes exactly that target and reads every other table; a write without one writes every table; a SELECT INTO reads every table and writes none |
| OracleProc.DeleteFromQuirk | src/datahub_custom_sources/extractors/oracle_stored_proc.py:177-184 | in `DELETE FROM t` the optional group is INTO, not FROM, so the word FROM is recorded as written and `t` as read |
| OracleProc.DeleteSplit | src/datahub_custom_sources/extractors/oracle_stored_proc.py:177-184 | a DELETE whose target is read as FROM writes FROM and reads every other table |
| OracleProc.ParseDmlStatementIntended | src/datahub_custom_sources/extractors/oracle_stored_proc.py:170-184 | the corrected half: as the program parses a statement, except that the read/written split uses the target after DELETE FROM; reads and writes stay disjoint and cover every table |
| OracleProc.IntendedTargetAgrees | src/datahub_custom_sources/extractors/oracle_stored_proc.py:15-18 | the two target patterns differ only where a DML keyword is followed by FROM |
| OracleProc.IntendedAgrees | src/datahub_custom_sources/extractors/oracle_stored_proc.py:170-184 | without a DML keyword followed by FROM, the corrected parse equals the program's |
| OracleProc.DeleteFromIntended | src/datahub_custom_sources/extractors/oracle_stored_proc.py:177-184 | with the corrected target, `DELETE FROM t` writes `t` and reads the other tables |
| OracleProc.DeleteIntendedTarget | src/datahub_custom_sources/extractors/oracle_stored_proc.py:15-18 | the corrected pattern takes the table after DELETE FROM as the target |
| OracleProc.DeleteIsDelete | src/datahub_custom_sources/extractors/oracle_stored_proc.py:144-145 | a text starting `DELETE FROM ` is classified as a delete |
| OracleProc.DeleteTarget | src/datahub_custom_sources/extractors/oracle_stored_proc.py:16 | in `DELETE FROM t` the DML pattern's target is the word FROM |
| OracleProc.DeleteKeyword | src/datahub_custom_sources/extractors/oracle_stored_proc.py:16 | such a statement opens with the keyword DELETE |
| OracleProc.DeleteFromWord | src/datahub_custom_sources/extractors/oracle_stored_proc.py:16 | the word FROM of such a statement is a whole dotted name |
| OracleProc.DeleteTableFound | src/datahub_custom_sources/extractors/oracle_stored_proc.py:153-158 | the table after FROM is among the statement's tables, upper-cased |
| OracleProc.DeleteNoTableBefore | src/datahub_custom_sources/extractors/oracle_stored_proc.py:24 | no table reference starts inside DELETE or at the space after it |
| OracleProc.DeleteTableAt | src/datahub_custom_sources/extractors/oracle_stored_proc.py:24 | the table reference after FROM is the qualified name that follows |
| OracleProc.NotKeyword | src/datahub_custom_sources/extractors/oracle_stored_proc.py:15-26 | text that differs from a keyword in some letter, whatever the case, is not that keyword |
| OracleProc.ParseExecuteImmediate | src/datahub_custom_sources/extractors/oracle_stored_proc.py:205-232 | no substep exactly when the pattern matches nowhere; otherwise a DYNAMIC_SQL substep with the order and line given, the same tables read and written, those of the first match's text stripped of whitespace and then of quotes, and a preview of at most 500 characters |
| OracleProc.SemicolonLine | src/datahub_custom_sources/extractors/oracle_stored_proc.py:287-290 | the first line at or after a position that holds a `;`, or the end: no line before it holds one |
| OracleProc.CollectStatement | src/datahub_custom_sources/extractors/oracle_stored_proc.py:285-292 | the collection loop as written gathers the statement's own line, then the lines after the next one up to the first line from the next one on holding a `;` |
| OracleProc.StatementLines | src/datahub_custom_sources/extractors/oracle_stored_proc.py:284-292 | the lines a statement evidently spans: consecutive lines from its own, none but the last holding a `;`, the last holding one or being the final line |
| OracleProc.CollectedSkipsNext | src/datahub_custom_sources/extractors/oracle_stored_proc.py:285-292 | the loop as written is the intended gathering from the next line on, less that next line itself |
| OracleProc.CollectDropsSecondLine | src/datahub_custom_sources/extractors/oracle_stored_proc.py:285-292 | for the lines `INSERT INTO t` and `SELECT a FROM s;` the loop as written gathers only the first, though the statement spans both |
| OracleProc.Snippet | src/datahub_custom_sources/extractors/oracle_stored_proc.py:294 | the statement text starts with the statement's own line |
| OracleProc.StatementParse | src/datahub_custom_sources/extractors/oracle_stored_proc.py:283-318 | the text of a statement line is classified as the line, so it always yields a substep, one that writes nothing when the line does not start with a DML keyword |
| OracleProc.StatementParseOf | src/datahub_custom_sources/extractors/oracle_stored_proc.py:161-202 | the same for any statement text that starts with such a line |
| OracleProc.SameClassification | src/datahub_custom_sources/extractors/oracle_stored_proc.py:137-150 | a statement's text is classified as its first line |
| OracleProc.LineStatement | src/datahub_custom_sources/extractors/oracle_stored_proc.py:283-318 | a line has a statement substep exactly when it starts with a DML keyword or holds SELECT and INTO, and is not blank or a comment; the substep carries the line's number and operation |
| OracleProc.LineDynamic | src/datahub_custom_sources/extractors/oracle_stored_proc.py:321-338 | only a line holding EXECUTE IMMEDIATE, not blank or a comment, may have a dynamic substep, which carries the line's number |
| OracleProc.ParseLine | src/datahub_custom_sources/extractors/oracle_stored_proc.py:275-338 | the parse of a line records whether it starts a DML statement, whether it marks the procedure dynamic, and its statement substep exactly when it is a statement line |
| OracleProc.ParseLines | src/datahub_custom_sources/extractors/oracle_stored_proc.py:275 | every line is parsed with its 1-based number |
| OracleProc.UnionAppend | src/datahub_custom_sources/extractors/oracle_stored_proc.py:298-299 | the tables of a run of substeps are those of each part |
| OracleProc.ScanLineSpec | src/datahub_custom_sources/extractors/oracle_stored_proc.py:283-338 | one line appends its statement substep, then its dynamic substep when dynamic SQL is parsed, numbered on from the counter and carrying the line's number; the tables grow by theirs, and the procedure becomes dynamic when the line marks it |
| OracleProc.AddSubstepSpec | src/datahub_custom_sources/extractors/oracle_stored_proc.py:296-318 | adding a substep numbers it with the counter, appends it and adds its tables; written tables are left out only for a SELECT INTO, which has none |
| OracleProc.ScanLinesInvariant | src/datahub_custom_sources/extractors/oracle_stored_proc.py:275-338 | over any number of lines the substeps are numbered 0, 1, ... in line order, and the tables are the union of the substeps' |
| OracleProc.InvariantGrows | src/datahub_custom_sources/extractors/oracle_stored_proc.py:275-338 | substeps numbered on from the counter and carrying the next line keep the scan's invariant |
| OracleProc.NumberedOn | src/datahub_custom_sources/extractors/oracle_stored_proc.py:295-338 | numbering goes on from the last substep across lines |
| OracleProc.LinesInOrder | src/datahub_custom_sources/extractors/oracle_stored_proc.py:275 | substeps stay in line order as lines are added |
| OracleProc.ScanLinesGrow | src/datahub_custom_sources/extractors/oracle_stored_proc.py:275-338 | each line's substeps come after the earlier lines' |
| OracleProc.StatementLineYields | src/datahub_custom_sources/extractors/oracle_stored_proc.py:283-318 | every statement line yields a substep with its line number and the operation its own text decides |
| OracleProc.StatementYields | src/datahub_custom_sources/extractors/oracle_stored_proc.py:295-300 | a line with a statement substep puts it in the scan |
| OracleProc.ScanDynamic | src/datahub_custom_sources/extractors/oracle_stored_proc.py:321-322 | the procedure is marked dynamic exactly when it was already, or dynamic SQL is parsed and some line that is not blank or a comment holds EXECUTE IMMEDIATE |
| OracleProc.ScanSource | src/datahub_custom_sources/extractors/oracle_stored_proc.py:264-338 | the scan of a procedure's lines keeps the numbering and table invariant and decides the dynamic mark as above |
| OracleProc.CallSubsteps | src/datahub_custom_sources/extractors/oracle_stored_proc.py:340-349 | one PROCEDURE_CALL substep per call in order, the counter advanced before each, so the first is numbered one past the last statement substep's number |
| OracleProc.UnionsIgnoreEmpty | src/datahub_custom_sources/extractors/oracle_stored_proc.py:340-349 | call substeps add no tables |
| OracleProc.CallsAppended | src/datahub_custom_sources/extractors/oracle_stored_proc.py:340-351 | after the calls are appended the statement substeps keep their numbers and lines, the calls follow, and the tables are unchanged |
| OracleProc.NamedCalls | src/datahub_custom_sources/extractors/oracle_stored_proc.py:341-349 | the call substeps name each nested call exactly once |
| OracleProc.Assembled | src/datahub_custom_sources/extractors/oracle_stored_proc.py:340-351 | the assembled procedure numbers every substep and names each call once |
| OracleProc.AssembledTables | src/datahub_custom_sources/extractors/oracle_stored_proc.py:298-351 | the assembled procedure keeps line numbers in order and its tables are the union of its substeps' and those it started with |
| OracleProc.ParseProcedureSubsteps | src/datahub_custom_sources/extractors/oracle_stored_proc.py:255-355 | the nested calls are those of the full source; statement and dynamic substeps come first, numbered from 0 in line order, one per statement line; then one call substep per nested call; the tables are the unions of the substeps'; the procedure is dynamic exactly when a line marks it and dynamic SQL is parsed, or it was already |
| OracleProc.NormalizeQualifies | src/datahub_custom_sources/extractors/oracle_stored_proc.py:358-381 | with non-empty, dot-free defaults, a bare or schema-qualified name becomes database.schema.name, and normalising again changes nothing |
| OracleProc.NormalizeBareFull | src/datahub_custom_sources/extractors/oracle_stored_proc.py:369-373 | a bare name with both defaults gains both |
| OracleProc.ThreePartsKept | src/datahub_custom_sources/extractors/oracle_stored_proc.py:379-381 | a name of three dot-free parts splits into them and is kept |
| OracleProc.NormalizeKeepsQualified | src/datahub_custom_sources/extractors/oracle_stored_proc.py:379-381 | a name of three or more parts is kept as it is, whatever the defaults |
| OracleProc.NormalizeDatabaseTwice | src/datahub_custom_sources/extractors/oracle_stored_proc.py:369-378 | with a default database but no default schema, `T` becomes `D.T`, and normalising again gives `D.D.T`: the operation is not idempotent |
| OracleProc.NormalizeBare | src/datahub_custom_sources/extractors/oracle_stored_proc.py:369-373 | a bare name with only a default database becomes database.name |
| OracleProc.NormalizeSchemaQualified | src/datahub_custom_sources/extractors/oracle_stored_proc.py:374-378 | a schema-qualified name gains the default database, whatever the default schema |
| OracleRunner.TableRefShape | src/datahub_custom_sources/operational/oracle_runner.py:36-39 | a table reference the pattern reads starts and ends with a word character |
| OracleRunner.FoundRefShape | src/datahub_custom_sources/operational/oracle_runner.py:57 | every reference found is non-empty and starts and ends with a word character |
| OracleRunner.TableRefsUnspaced | src/datahub_custom_sources/operational/oracle_runner.py:58 | stripping a found reference changes nothing |
| OracleRunner.ExtractTables | src/datahub_custom_sources/operational/oracle_runner.py:55-59 | the tables of a statement are exactly the references the pattern finds, in the case they were written |
| OracleRunner.ExtractTablesUpper | src/datahub_custom_sources/operational/oracle_runner.py:36-39 | the stored-procedure parser, whose pattern is the same, finds the same references upper-cased |
| OracleRunner.ExtractTablesEmpty | src/datahub_custom_sources/operational/oracle_runner.py:57 | empty text references no table |
| OracleRunner.NormalizeAgreesUpToThree | src/datahub_custom_sources/operational/oracle_runner.py:62-73 | on names of at most three parts this normaliser and the stored-procedure one agree, the two taking their defaults in opposite order |
| OracleRunner.NormalizeKeepsLastThree | src/datahub_custom_sources/operational/oracle_runner.py:74-76 | a name of three or more parts becomes its last three parts |
| OracleRunner.NormalizeFourParts | src/datahub_custom_sources/operational/oracle_runner.py:74-76 | on a four-part name this normaliser drops the first part while the stored-procedure one keeps the name whole |
| OracleRunner.StatementTables | src/datahub_custom_sources/operational/oracle_runner.py:165-167 | a statement has normalised tables exactly when it references some table |
| OracleRunner.Observe | src/datahub_custom_sources/operational/oracle_runner.py:162-189 | a statement reports nothing exactly when it references no table; otherwise it reports its tables as inputs, starting at its last activity, with outputs either none or all the inputs |
| OracleRunner.ObserveOutputs | src/datahub_custom_sources/operational/oracle_runner.py:169-174 | a reported statement has outputs exactly when its lower-cased text holds ` insert `, ` update `, ` merge ` or ` delete ` |
| OracleRunner.PollOnce | src/datahub_custom_sources/operational/oracle_runner.py:156-189 | without `v$sql` among the sources nothing is fetched and the cursor stays; otherwise every fetched statement is observed in turn, those with tables giving the instances in order, and the cursor ends at or after each statement's activity plus one second and never moves back |
| OracleRunner.PollInstances | src/datahub_custom_sources/operational/oracle_runner.py:162-189 | every instance of a cycle has inputs and outputs that are none or all of them, and a cycle gives no instance exactly when no fetched statement references a table |
| OracleRunner.WriteNeedsSpacedKeyword | src/datahub_custom_sources/operational/oracle_runner.py:170-171 | a write has two spaces six or seven characters apart |
| OracleRunner.LeadingKeywordAlone | src/datahub_custom_sources/operational/oracle_runner.py:170-171 | `INSERT INTO t` with no other spaces counts as read-only |
| OracleRunner.SpacedKeywordWrites | src/datahub_custom_sources/operational/oracle_runner.py:170-171 | a DML keyword with a space on each side makes a write, whatever its case and whatever surrounds it |
| OracleRunner.JobId | src/datahub_custom_sources/operational/oracle_runner.py:241 | a procedure's job id is `owner.name` lower-cased |
| OracleRunner.CallEdgeMeetsCallee | src/datahub_custom_sources/operational/oracle_runner.py:310-313 | a nested call's job edge names the callee's job id when owner and name agree up to case, despite the call scanner's upper-casing |
| OracleRunner.NormalizedTables | src/datahub_custom_sources/operational/oracle_runner.py:284-291 | a set of tables normalises to an empty set exactly when it is empty |
| OracleRunner.SortedTables | src/datahub_custom_sources/operational/oracle_runner.py:294-301 | the names sorted: in order, and exactly the set's elements |
| OracleRunner.Wildcards | src/datahub_custom_sources/operational/oracle_runner.py:348-349 | each table becomes the table-level field path `t.*`, in order |
| OracleRunner.SubstepMappings | src/datahub_custom_sources/operational/oracle_runner.py:333-370 | a substep contributes one mapping per normalised output table, each from all its sorted normalised inputs, and none when it reads nothing |
| OracleRunner.MappingDrawn | src/datahub_custom_sources/operational/oracle_runner.py:353-370 | each such mapping is drawn from the substep's operation, inputs, one output and preview |
| OracleRunner.ProcedureMappings | src/datahub_custom_sources/operational/oracle_runner.py:329-370 | no mappings unless the procedure writes some table; otherwise the mappings of every substep in turn, their number the sum of each substep's, each drawn from some substep |
| OracleRunner.MappingsStep | src/datahub_custom_sources/operational/oracle_runner.py:333-370 | appending the mappings of the next substep keeps the loop's state |
| OracleRunner.MappingsDone | src/datahub_custom_sources/operational/oracle_runner.py:333-370 | after the loop every substep is mapped and the count is the sum of theirs |
| OracleRunner.SubstepCount | src/datahub_custom_sources/operational/oracle_runner.py:353-370 | the mappings of one substep add their number to the count |
| OracleRunner.ProcedureIo | src/datahub_custom_sources/operational/oracle_runner.py:283-327 | no coarse lineage exactly when the procedure reads and writes no table; otherwise the sorted normalised inputs and outputs, and one job edge per nested call pointing at `owner.call` lower-cased |
| Ssis.TaskName | src/datahub_custom_sources/extractors/ssis_dtsx.py:40-43 | a task is named by its ObjectName, else its Name, else `ssis_task`, an empty attribute counting as missing; the name is never empty |
| Ssis.TaskType | src/datahub_custom_sources/extractors/ssis_dtsx.py:45-46 | a task's type holds no dot, and is `SSIS_EXECUTABLE` without an ExecutableType |
| Ssis.TaskTypeLastComponent | src/datahub_custom_sources/extractors/ssis_dtsx.py:46 | the type of a dotted executable type is its last component |
| Ssis.TaskTypeUndotted | src/datahub_custom_sources/extractors/ssis_dtsx.py:46 | an undotted executable type is its own type |
| Ssis.QualifyBare | src/datahub_custom_sources/extractors/ssis_dtsx.py:175-185 | a bare name with both defaults becomes `db.schema.name`, as the Oracle normaliser makes it |
| Ssis.QualifySchemaQualified | src/datahub_custom_sources/extractors/ssis_dtsx.py:183-184 | a schema-qualified name gains the default database, as the Oracle normaliser does |
| Ssis.QualifyNeedsSchemaForDb | src/datahub_custom_sources/extractors/ssis_dtsx.py:181-184 | without a default schema a bare name stays bare although a default database is set, where the Oracle normaliser would prefix it |
| Ssis.QualifyKeepsQualified | src/datahub_custom_sources/extractors/ssis_dtsx.py:181-184 | a name with two dots or more is left alone |
| Ssis.QualifyIdempotent | src/datahub_custom_sources/extractors/ssis_dtsx.py:175-185 | with undotted defaults, qualifying twice is qualifying once |
| Ssis.OneDotParts | src/datahub_custom_sources/extractors/ssis_dtsx.py:183 | a name with exactly one dot is two undotted parts around it |
| Ssis.CatalogNeedsSchema | src/datahub_custom_sources/extractors/ssis_dtsx.py:163-171 | a table node's catalog is dropped when no schema is known |
| Ssis.OwnPartsWin | src/datahub_custom_sources/extractors/ssis_dtsx.py:163-167 | a table node's own catalog and schema win over the defaults |
| Ssis.TableNames | src/datahub_custom_sources/extractors/ssis_dtsx.py:161-171 | each table node gets its own name, in order |
| Ssis.NormalizeTables | src/datahub_custom_sources/extractors/ssis_dtsx.py:156-172 | the names of the table nodes, sorted, each once |
| Ssis.FilterSorted | src/datahub_custom_sources/extractors/ssis_dtsx.py:69 | keeping the tables that are not outputs keeps them sorted |
| Ssis.ExtractSqlTables | src/datahub_custom_sources/extractors/ssis_dtsx.py:54-73 | a statement that does not parse goes to the fallback; otherwise the outputs are exactly the sorted names of the DML targets and the inputs exactly the sorted names of the other tables, the two disjoint |
| Ssis.FallbackKeywordEnd | src/datahub_custom_sources/extractors/ssis_dtsx.py:211 | `from`, `join`, `into` or `update` read at a position ends after it and inside the text |
| Ssis.FallbackRefAt | src/datahub_custom_sources/extractors/ssis_dtsx.py:211 | the reference after the keyword is non-empty and made of word characters, dots and brackets |
| Ssis.FallbackTables | src/datahub_custom_sources/extractors/ssis_dtsx.py:206-223 | the fallback gives no outputs, and as inputs exactly the qualified references it finds, sorted and each once |
| Ssis.BracketsOnlyAtEnds | src/datahub_custom_sources/extractors/ssis_dtsx.py:216 | only the outer brackets are stripped: `[dbo].[t]` keeps its inner `].[` |
| InfaModel.TypeFromString | informatica_lineage.py:110-116 | the kind whose name equals the text ignoring case; Unknown only when no other kind has that name |
| InfaModel.NoKindNamed | informatica_lineage.py:110-116 | a search that ends in Unknown passed no kind with the name |
| InfaModel.TypeFromStringRoundTrip | informatica_lineage.py:89-116 | every kind's own name, in any case, maps back to that kind |
| InfaModel.NamesDistinctFrom | informatica_lineage.py:89-108 | no two kinds' names are equal ignoring case, so the first match is the only one |
| InfaModel.FirstNamedHits | informatica_lineage.py:113-115 | the search over the kinds stops at the one kind named like the text |
| InfaModel.GetTransformation | informatica_lineage.py:888-902 | an instance's transformation is the mapping's own when it has one, else the folder's reusable one, and missing exactly when neither has it |
| InfaModel.QualifiedNameSplits | informatica_lineage.py:994 | `schema.name` with a non-empty schema splits back at its last dot into schema and name; with an empty schema it is the name |
| InfaModel.DatasetNameSplits | informatica_lineage.py:1096-1110 | a dataset name is `owner.name` when the owner is set, and splits back into the two; otherwise it is the name |
| InfaSql.MatchKnownTable | informatica_lineage.py:638-646 | the first known table whose name equals the queried one or ends with `.` and it, ignoring case; none exactly when no known table does |
| InfaSql.SourceRefsGet | informatica_lineage.py:633-651 | the alias map has each key once, knows a key exactly when some query table is keyed by it, and then maps it to the matched name of the last such table |
| InfaSql.RefEntries | informatica_lineage.py:634-651 | each query table gives its upper-cased alias and its matched name, in order |
| InfaSql.FieldPositions | informatica_lineage.py:712-715 | the positions of exactly the fields named like the column, ignoring case, each once |
| InfaSql.MatchPositions | informatica_lineage.py:711-715 | the positions across all known tables of exactly the fields named like the column, each once |
| InfaSql.ResolveColumnTable | informatica_lineage.py:705-719 | a column belongs to the table of the one field named like it; nothing when no field or more than one field across the tables is |
| InfaSql.ResolveQualified | informatica_lineage.py:672-678 | a qualified column names the matched table of the last query table keyed by its qualifier, or else the qualifier upper-cased |
| InfaSql.SourceRefsSize | informatica_lineage.py:633-651 | the alias map has one entry when all query tables share a key, at least two when two differ, none without tables |
| InfaSql.ResolveSingleTable | informatica_lineage.py:679-680 | an unqualified column of a query whose tables share one key belongs to the last of them |
| InfaSql.ResolveManyTables | informatica_lineage.py:681-685 | an unqualified column of a query with tables under two keys, or with none, is looked up by field name |
| InfaSql.Upstream | informatica_lineage.py:667-688 | the upstream columns of an item: each resolved column with a non-empty table, under its own name, in order; columns without a table are dropped |
| InfaSql.FieldLineage | informatica_lineage.py:692-694 | each field of a table passes through under its own name, with no expression |
| InfaSql.ParseSql | informatica_lineage.py:615-631 | a statement that is not a SELECT yields no lineage |
| InfaSql.ItemsLineageShape | informatica_lineage.py:654-698 | every result names at least one upstream column; one with an expression has a table for each, one from `*` is a single field passed through under its own name |
| InfaSql.StarLineageFields | informatica_lineage.py:690-695 | `SELECT *` yields exactly one pass-through result per field of every known table |
| InfaSql.QualifiedNameAt | informatica_lineage.py:730-733 | `(?:(\w+)\.)?(\w+)` at a position reads the words written there, qualified when a dot joins two words |
| InfaSql.WordLiteral | informatica_lineage.py:730-733 | a run of word characters reads as the word written there |
| InfaSql.QualifiedLiteral | informatica_lineage.py:730-733 | two runs of word characters around a dot read as `schema.name` |
| InfaSql.CallAt | informatica_lineage.py:729-734 | a call pattern matching at a position reads a word name and an optional word schema |
| InfaSql.DetectStoredProcedureCall | informatica_lineage.py:721-743 | a detected call names a word procedure and an optional word schema |
| InfaSql.AlongSearch | informatica_lineage.py:737 | one pattern's search finds nothing exactly when it matches nowhere, and otherwise its leftmost match |
| InfaSql.FirstPatternMatchNone | informatica_lineage.py:736-743 | the patterns in turn find nothing exactly when none matches anywhere |
| InfaSql.FirstPatternMatchFirst | informatica_lineage.py:736-741 | what the patterns in turn find is the leftmost match of the first pattern that matches at all |
| InfaSql.DetectNone | informatica_lineage.py:721-743 | nothing is detected exactly when no pattern matches anywhere in the text |
| InfaSql.DetectFirst | informatica_lineage.py:736-741 | what is detected is the leftmost match of the first pattern that matches anywhere |
| InfaSql.KeywordAbsent | informatica_lineage.py:737 | a keyword cannot match, whatever the case, where one of its letters occurs in neither case |
| InfaSql.DetectAtStart | informatica_lineage.py:736-741 | a match at the start by a pattern that no earlier pattern pre-empts is what is detected |
| InfaSql.FirstAtStart | informatica_lineage.py:736-741 | for any matcher, a match at the start with no match of an earlier pattern anywhere is the first pattern match |
| InfaSqlExamples.DetectBeginBlock | informatica_lineage.py:732 | the block `BEGIN PKG.GET_KEY(:1,:2); END;` calls GET_KEY of PKG |
| InfaSqlExamples.BeginBlockName | informatica_lineage.py:732 | the qualified name after BEGIN in that block is PKG.GET_KEY |
| InfaSqlExamples.BeginBlockNoEarlier | informatica_lineage.py:730-731 | neither the CALL nor the EXECUTE pattern matches anywhere in that block |
| InfaLineage.FeedsSpec | informatica_lineage.py:818-829 | the ports feeding a field are exactly those some connector carries into it |
| InfaLineage.InstanceGraphLookup | informatica_lineage.py:806-831 | looking a field up in the instance graph gives exactly the ports connected into it, in connector order |
| InfaLineage.Inputs | informatica_lineage.py:858 | a port's inputs are the ports the connectors carry into it |
| InfaLineage.InputsFed | informatica_lineage.py:858 | every input of a port is a fed port of the mapping, so the trace stays among finitely many keys |
| InfaLineage.TraceNode | informatica_lineage.py:833-886 | tracing from a port never forgets a visited key |
| InfaLineage.TraceInputs | informatica_lineage.py:879-884 | tracing several inputs in turn, sharing the visited keys, never forgets one |
| InfaLineage.InvariantAppend | informatica_lineage.py:879-884 | two traces run one after the other keep the trace invariant together |
| InfaLineage.TraceNodeSpec | informatica_lineage.py:833-886 | the trace from a port records faithful steps, each key once and only if it was not visited before; the first step is the port itself at the given order, every later step hangs below an earlier one, and every input of a step is visited |
| InfaLineage.NodeInvariant | informatica_lineage.py:846-884 | a step for a fresh key followed by the traces of its inputs keeps the invariant |
| InfaLineage.ConsKeysDistinct | informatica_lineage.py:846-849 | a step whose key no later step shares keeps the keys distinct |
| InfaLineage.NodeParents | informatica_lineage.py:868-884 | every step after the first hangs below an earlier one, one order deeper |
| InfaLineage.TraceInputsSpec | informatica_lineage.py:879-884 | the traces of several inputs together keep the invariant, visit every input's key, and each step is a trace root at the given order or hangs below an earlier step |
| InfaLineage.TraceFieldLineageSpec | informatica_lineage.py:833-886 | the chain behind a target field is empty exactly when the target instance is unknown; otherwise it opens with the target port at order 0, has one step per visit key, and every later step feeds an earlier one and sits one level below it |
| InfaLineage.FieldEntriesSpec | informatica_lineage.py:796-802 | a target instance stores, for each declared field, its chain under `target.field` when the chain is not empty |
| InfaLineage.OwnEntriesSpec | informatica_lineage.py:789-802 | the entries of one target instance are those of its declared fields with non-empty chains, and none when its target is not defined |
| InfaLineage.LineageEntriesSpec | informatica_lineage.py:784-802 | the entries of all target instances are those of each |
| InfaLineage.TraceEmpty | informatica_lineage.py:852-855 | a traced chain is empty exactly when the mapping does not know the instance |
| InfaLineage.StoredKeySound | informatica_lineage.py:768-804 | every stored key names a declared field of a target instance that the mapping knows by its own name |
| InfaLineage.StoredKeyComplete | informatica_lineage.py:768-804 | every declared field of such a target instance is stored |
| InfaLineage.BuildMappingLineageKeys | informatica_lineage.py:768-804 | a key is stored exactly when some target instance of the mapping, known to it by its own name, declares a field of that key |
| InfaLineage.BuildMappingLineageChains | informatica_lineage.py:768-804 | every stored chain is the trace of a declared field of a target instance under that field's key |
| InfaLineage.InputsFromPorts | informatica_lineage.py:1089-1092 | every input of a port is some connector's from-port |
| InfaLineage.SearchSource | informatica_lineage.py:1067-1094 | whatever the breadth-first search returns is a source port |
| InfaLineage.SearchSourceSound | informatica_lineage.py:1067-1094 | a source found from a closed set of ports lies in that set |
| InfaLineage.FindSourceSound | informatica_lineage.py:1060-1094 | the source the search finds is reachable from the start port through connectors, and is a port of a defined Source Definition |
| InfaLineage.KeyOfInjective | informatica_lineage.py:1072 | visit keys tell ports apart when instance names hold no dot |
| InfaLineage.ExploredClosed | informatica_lineage.py:1070-1092 | once the queue is empty, the ports whose keys were used up form a closed set without source ports |
| InfaLineage.SearchSourceComplete | informatica_lineage.py:1070-1094 | when the search finds nothing, no source port is reachable from what it was given |
| InfaLineage.CompleteSkip | informatica_lineage.py:1074-1075 | a port whose key is used up is passed over |
| InfaLineage.CompleteUnknown | informatica_lineage.py:1078-1080 | a port of an unknown instance uses up its key and queues nothing |
| InfaLineage.CompleteExpand | informatica_lineage.py:1088-1092 | a known port that is no source uses up its key and queues the ports connected into it |
| InfaLineage.ExpandUnfold | informatica_lineage.py:1070-1092 | the search at such a port goes on with the rest of the queue followed by its inputs |
| InfaLineage.FindSourceComplete | informatica_lineage.py:1060-1094 | with dot-free instance names, when the search finds no source, no source port is reachable from the start port |
| InfaEdges.SourceTablesOf | informatica_lineage.py:1005-1007 | the SQL parser sees every folder source under its name with its field names |
| InfaEdges.UpstreamEdgesSpec | informatica_lineage.py:1016-1028 | one edge per upstream column that names a folder source |
| InfaEdges.SqlEdgesSpec | informatica_lineage.py:1013-1028 | the SQL-derived edges are exactly one per upstream folder-source column of each result whose output is the target column ignoring case |
| InfaEdges.ParseSqlProcCall | informatica_lineage.py:989-1002 | the SQL override of a Source Qualifier that calls a procedure yields exactly the wildcard `CALL` edge of that procedure |
| InfaEdges.ParseSqlQuery | informatica_lineage.py:1004-1032 | otherwise every edge is a 0.95-confidence Source Qualifier edge into the target column, one per upstream folder-source column of a parsed result for that column |
| InfaEdges.StoredProcLineageSpec | informatica_lineage.py:1034-1058 | a Stored Procedure step yields one wildcard `EXEC` edge exactly when its transformation names a procedure, and the edge's source dataset splits back into schema and procedure |
| InfaEdges.FoundEdgesSpec | informatica_lineage.py:959-975 | an ordinary step's edges are one per input whose source the search finds |
| InfaEdges.StepEdgesTargets | informatica_lineage.py:921-975 | every edge of a step targets the chain's target column |
| InfaEdges.SourceDefinitionEdges | informatica_lineage.py:943-956 | a Source Definition step of a defined source gives one edge per input, in input order, from the source's dataset and the input's column |
| InfaEdges.OrdinaryStepEdges | informatica_lineage.py:958-975 | an ordinary step's edges come exactly from the inputs whose source the search finds |
| InfaEdges.ChainEdgesSpec | informatica_lineage.py:921-975 | a chain's edges are exactly those of its steps, all into the target column |
| InfaEdges.KeyEdgesOfTarget | informatica_lineage.py:913-918 | a key built from a dot-free target name splits back into the target and the field, so its chain's edges are read against that target |
| InfaEdges.KeyEdgesSpec | informatica_lineage.py:913-918 | a stored key's edges are those of its chain read against the target the key names, and none when that target is not defined |
| InfaEdges.EntriesEdgesSpec | informatica_lineage.py:913-975 | the edges of all stored entries are those of each |
| InfaEdges.BuildColumnLineageEdgesSpec | informatica_lineage.py:904-977 | the mapping's column lineage edges are exactly the step edges of the stored chains, each read against the target its key names |
| InfaEdges.BuildColumnLineageEdgesTargets | informatica_lineage.py:904-977 | every edge targets the column its chain's key names, with confidence 0.95 exactly for SQL-derived edges and 1.0 otherwise |
| InfaEdges.KeyEdgeTargets | informatica_lineage.py:913-975 | an edge drawn from the chain stored under a key targets the column the key names |
| InfaEdges.DottedTargetKey | informatica_lineage.py:797-914 | a target whose name holds a dot loses its key: field `C` of target `S.T` is stored under `S.T.C`, which splits into table `S` and column `T.C` |
| InfaOrder.PredsSuccs | informatica_lineage.py:1507-1513 | an instance is a predecessor of another exactly when the other is its successor: both indexes come from the same connectors between known instances |
| InfaOrder.Remaining | informatica_lineage.py:1529-1531 | the closing loop adds exactly the instances not yet placed, each once when the instances are distinct |
| InfaOrder.TransformationOrder | informatica_lineage.py:1504-1533 | every instance appears exactly once; the result is a prefix in which every instance follows its predecessors and after which no instance is free, then the instances left over, in declaration order |
| InfaOrder.KahnPhase | informatica_lineage.py:1515-1526 | the FIFO phase places distinct instances, each after all of its predecessors, and stops only when every unplaced instance still waits for an unplaced one |
| InfaOrder.Release | informatica_lineage.py:1523-1526 | after the successor loop every successor has lost the placed instance from its waiting set, every instance whose predecessors are all placed is placed or queued, and the queue keeps only instances whose predecessors are placed |
| InfaOrder.AppendRemaining | informatica_lineage.py:1529-1531 | the closing loop yields the placed prefix followed by the unplaced instances in declaration order |
| InfaOrder.QueuedAreNames | informatica_lineage.py:1517 | the first queue holds only instances without predecessors |
| InfaOrder.QueuedAreAll | informatica_lineage.py:1517 | the first queue holds every instance without predecessors |
| InfaOrder.AcyclicOrder | informatica_lineage.py:1504-1533 | when the connectors admit a ranking (no cycle), the ordered prefix is the whole result and every connector's from-instance precedes its to-instance |
| InfaOrder.SessionTaskNamesIn | informatica_lineage.py:523-527 | a name is collected exactly when a Session task of that name is declared |
| InfaOrder.SessionOrderSpec | informatica_lineage.py:522-527 | the workflow order lists every Session task exactly once, in order of first declaration |
| InfaOrder.NextTasksIn | informatica_lineage.py:536-542 | the next tasks of a task are exactly the link targets from it |
| InfaOrder.StartTasks | informatica_lineage.py:545-546 | the start tasks are the Sessions that no link enters |
| InfaOrder.WalkSound | informatica_lineage.py:549-558 | every task the walk newly visits is reachable from its queue along links |
| InfaOrder.WalkClosed | informatica_lineage.py:549-558 | every link out of a visited task leads to a visited task |
| InfaOrder.WalkSpec | informatica_lineage.py:549-558 | the walk from the start tasks lists exactly the Sessions reachable from them, each once |
| InfaOrder.WorkflowSessionsSpec | informatica_lineage.py:513-564 | without links, or when no Session is unentered, the sessions are the declaration order; otherwise exactly the Sessions reachable from the unentered Sessions, each once; always distinct declared Sessions |
| InfaOrder.UnreachedSessionDropped | informatica_lineage.py:545-560 | once some Session has no incoming link, a Session the walk cannot reach is left out of the workflow's sessions |
| InfaOrder.ExampleSessions | informatica_lineage.py:522-527 | with a Start task and two Sessions, the workflow order is the two Sessions in declaration order |
| InfaOrder.ExampleStarts | informatica_lineage.py:545-546 | a Session fed only by the Start task is not a start task; the unfed Session is the only one |
| InfaOrder.StartTaskSessionDropped | informatica_lineage.py:545-560 | a Session fed only by the non-Session Start task is dropped when another Session has no incoming link |
| InfaEmit.MinConfidence | informatica_lineage.py:1330 | the confidence is the smallest edge confidence, attained by some edge, and 1.0 for no edges |
| InfaEmit.FieldUrnsIn | informatica_lineage.py:1306-1314 | a field URN is collected exactly when some edge names that field of its source dataset, skipping `*` columns |
| InfaEmit.UpstreamFieldsMembers | informatica_lineage.py:1306-1314 | the upstream fields are exactly the fields named by some non-`*` edge |
| InfaEmit.UpstreamFieldsSpec | informatica_lineage.py:1311-1314 | the upstream fields hold no repeats, exactly the fields named by some non-`*` edge |
| InfaEmit.Expressions | informatica_lineage.py:1326 | the expressions are exactly the non-empty expressions of the edges |
| InfaEmit.JoinOrNone | informatica_lineage.py:1327 | the combined expression is absent exactly when there are no parts |
| InfaEmit.EdgesByIn | informatica_lineage.py:1296-1301 | a key's group holds exactly the edges with that key |
| InfaEmit.KeyGroupIoSpec | informatica_lineage.py:1303-1341 | a target key's group yields its source URNs and target URN, and a fine-grained entry exactly when an edge names a source column, listing those fields once each with the weakest confidence and an operation exactly when an edge has an expression |
| InfaEmit.TargetKeySplits | informatica_lineage.py:1298-1319 | a target key reads back as the edge's own dataset and column exactly when the column has no dot |
| InfaEmit.DottedTargetsShareGroup | informatica_lineage.py:1298-1319 | targets `a.b`/`c` and `a`/`b.c` share one group, read back as column `c` of `a.b` |
| InfaEmit.GroupsIoInputs | informatica_lineage.py:1303-1309 | the inputs are the union of the groups' source URNs |
| InfaEmit.GroupsIoOutputs | informatica_lineage.py:1321-1322 | the outputs are exactly the groups' target URNs |
| InfaEmit.GroupsIoFine | informatica_lineage.py:1332-1341 | the fine-grained entries are exactly the groups' entries that exist |
| InfaEmit.BuildJobIoSpec | informatica_lineage.py:1284-1343 | the inputs are the source datasets of all edges, `*` ones included; the outputs are the datasets read back from the target keys; one fine-grained entry per target key under which some edge names a source column |
| InfaEmit.GroupsCover | informatica_lineage.py:1296-1301 | the grouping holds exactly the edges: every group is its key's non-empty edge list and every edge's key has a group |
| InfaEmit.InsertDescPerm | informatica_lineage.py:1386 | inserting an edge into the sorted list keeps every edge |
| InfaEmit.InsertDescStable | informatica_lineage.py:1386 | inserting an edge keeps the edges of each step order in their original order |
| InfaEmit.InsertDescSorted | informatica_lineage.py:1386 | inserting an edge keeps the list sorted by descending step order |
| InfaEmit.SortByStepDescSpec | informatica_lineage.py:1386 | the sort orders edges by descending step order, is a permutation, and is stable |
| InfaEmit.ExprParts | informatica_lineage.py:1387-1390 | the parts are exactly the non-empty expressions, each prefixed with its transformation type in brackets |
| InfaEmit.Somes | informatica_lineage.py:1384-1404 | a column entry is kept exactly when it exists |
| InfaEmit.ColumnFineSpec | informatica_lineage.py:1372-1404 | a column's entry exists exactly when an edge names a source field; it lists those fields once each, targets the column, has the weakest confidence and an operation exactly when an edge has an expression |
| InfaEmit.EdgesByNonEmpty | informatica_lineage.py:1352-1356 | every dataset group is the non-empty list of that dataset's edges |
| InfaEmit.DatasetEntrySpec | informatica_lineage.py:1358-1404 | a dataset's entry has its target URN, the source datasets of all its edges, and one column entry per column under which an edge names a source field |
| InfaEmit.EmitEntrySpec | informatica_lineage.py:1358-1425 | a dataset with edges gets a non-empty upstream set, exactly the source datasets of its edges, and column entries from its own edges |
| InfaEmit.EmitDatasetLineageSpec | informatica_lineage.py:1345-1425 | one entry per target dataset in first-seen order, each with a non-empty upstream set of exactly its edges' source datasets and column entries built from its own edges only |
| PortGraph.FqnParts | src/dh_infa_autosys/extractors/informatica_xml.py:19-23 | the qualified name splits back at its dots into the truthy database, schema (own or default) and name, when no part holds a dot |
| PortGraph.FqnOwnPartsWin | src/dh_infa_autosys/extractors/informatica_xml.py:19-23 | a reference's own truthy database and schema win over any default |
| PortGraph.Clean | src/dh_infa_autosys/extractors/informatica_xml.py:78-82 | cleaning gives nothing for absent or whitespace-only text, and otherwise a non-empty slice of the text with no space at either end |
| PortGraph.CleanIdempotent | src/dh_infa_autosys/extractors/informatica_xml.py:78-82 | cleaning cleaned text changes nothing |
| PortGraph.LastBoundary | src/dh_infa_autosys/extractors/informatica_xml.py:223 | the greedy token run backs off to the last word boundary at or before its end, and to none when there is none |
| PortGraph.TokensSound | src/dh_infa_autosys/extractors/informatica_xml.py:223 | every token found from a position is a token span of the text at or after it |
| PortGraph.TokenShape | src/dh_infa_autosys/extractors/informatica_xml.py:223 | a token starts with an upper-case letter and holds only token characters, none of them lower-case |
| PortGraph.PortReferences | src/dh_infa_autosys/extractors/informatica_xml.py:226-238 | the references are exactly the tokens of the expression that are not function words |
| PortGraph.TokensReach | src/dh_infa_autosys/extractors/informatica_xml.py:232 | a token after a non-token character is found by a scan started anywhere before it |
| PortGraph.WholeWordIsToken | src/dh_infa_autosys/extractors/informatica_xml.py:223 | a whole upper-case word standing alone between non-word characters is a token |
| PortGraph.WholeWordIsReference | src/dh_infa_autosys/extractors/informatica_xml.py:226-238 | such a word is a reference unless it is a function word |
| PortGraph.QuotedWordIsReference | src/dh_infa_autosys/extractors/informatica_xml.py:226-238 | an upper-case word inside a quoted literal is taken for a port reference like any other |
| PortGraph.QuotedExampleVip | src/dh_infa_autosys/extractors/informatica_xml.py:226-238 | in the expression with literals 'VIP' and 'ACTIVE', VIP is a reference |
| PortGraph.QuotedExampleActive | src/dh_infa_autosys/extractors/informatica_xml.py:226-238 | in the same expression, ACTIVE is a reference |
| PortGraph.QuotedExampleX | src/dh_infa_autosys/extractors/informatica_xml.py:226-238 | in the same expression, the port X is a reference |
| PortGraph.QuotedWordsCount | src/dh_infa_autosys/extractors/informatica_xml.py:226-238 | X, VIP and ACTIVE are all references while the function name IIF is not |
| PortGraph.ConnectorIndexSpec | src/dh_infa_autosys/extractors/informatica_xml.py:241-248 | the index has one entry per destination port in first-seen order, listing the origin of each connector into it in connector order, and no entry for a port nothing connects into |
| PortGraph.Origins | src/dh_infa_autosys/extractors/informatica_xml.py:246-247 | the origins of a port are exactly the from-ports of the connectors into it |
| PortGraph.OriginsAre | src/dh_infa_autosys/extractors/informatica_xml.py:241-248 | the index's list for a port is the connector origins into it, in connector order |
| PortGraph.Expand | src/dh_infa_autosys/extractors/informatica_xml.py:281-289 | expanding a non-source port pushes exactly its connector origins and its expression's references within the same instance |
| PortGraph.ExploredComplete | src/dh_infa_autosys/extractors/informatica_xml.py:268-289 | a search that ends with nothing pending has visited every port reachable from the start |
| PortGraph.SearchStep | src/dh_infa_autosys/extractors/informatica_xml.py:268-289 | one pass pops the last pending port and either skips a visited one, stops past the cut-off, or visits it and pushes its next ports, each time getting closer to the end |
| PortGraph.ResolveUpstreamSourceFields | src/dh_infa_autosys/extractors/informatica_xml.py:251-292 | the target port is visited, at most max_hops plus one ports are visited, each reachable from the target; the result is exactly the visited ports on source instances; and a search that stays within max_hops visits everything reachable |
| PortGraph.ExampleReachesSource | src/dh_infa_autosys/extractors/informatica_xml.py:251-292 | in a two-instance mapping the source field is reachable from the target port through its expression and then the connector |
| PortGraph.ExampleExpressionStep | src/dh_infa_autosys/extractors/informatica_xml.py:285-289 | the target port's expression names the input port of the same instance |
| PortGraph.ExampleConnectorStep | src/dh_infa_autosys/extractors/informatica_xml.py:281-283 | the connector leads from that input port back to the source field |
| InfaSource.ParseRegex | src/datahub_custom_sources/sources/informatica.py:33-34 | compiling the built regex text gives at most one piece per character, and nothing for syntax the built text never holds |
| InfaSource.LiteralPieces | src/datahub_custom_sources/sources/informatica.py:33 | every character of the pattern becomes one literal piece, in order |
| InfaSource.EscapeClasses | src/datahub_custom_sources/sources/informatica.py:33 | the escaper escapes no letter or digit and leaves no metacharacter unescaped |
| InfaSource.ParseEscape | src/datahub_custom_sources/sources/informatica.py:33 | the escaped pattern compiles back to the pattern's own characters as literals |
| InfaSource.ReplaceEscapeUnchanged | src/datahub_custom_sources/sources/informatica.py:33 | without a backslash in the pattern, the escaped text holds no backslash pair for a character the escaper leaves alone, so replacing that pair changes nothing |
| InfaSource.MatchesLiteral | src/datahub_custom_sources/sources/informatica.py:34 | literal pieces match exactly the texts equal to the pattern up to case |
| InfaSource.FullMatchLiteral | src/datahub_custom_sources/sources/informatica.py:34 | anchored literal pieces match the pattern's own text up to case, with or without one final newline |
| InfaSource.AsWrittenCompiles | src/datahub_custom_sources/sources/informatica.py:31-34 | without a backslash, the regex built from a pattern is the pattern's own text as literals |
| InfaSource.AsWrittenIsLiteral | src/datahub_custom_sources/sources/informatica.py:31-34 | as written, a backslash-free pattern matches exactly the names equal to it up to case, optionally followed by a newline: percent and underscore stand for themselves |
| InfaSource.LikePieces | src/datahub_custom_sources/sources/informatica.py:32 | read as SQL LIKE, each pattern character becomes its own piece: percent any run, underscore any character, others literal |
| InfaSource.AnyRun | src/datahub_custom_sources/sources/informatica.py:32 | a starred any-character piece matches exactly the texts without a newline |
| InfaSource.LikeWithoutWildcards | src/datahub_custom_sources/sources/informatica.py:31-34 | a pattern without percent, underscore or backslash means the same as written and as LIKE |
| InfaSource.LikePrefix | src/datahub_custom_sources/sources/informatica.py:32 | read as LIKE, a prefix followed by percent matches every name that starts with the prefix up to case and has no line break after it |
| InfaSource.DummyPatternAsWritten | src/datahub_custom_sources/sources/informatica.py:31-34 | as written, DUMMY_% does not match DUMMY_T1 |
| InfaSource.DummyPatternLike | src/datahub_custom_sources/sources/informatica.py:32 | read as LIKE, DUMMY_% matches DUMMY_T1 |
| InfaSource.IgnoredAsWrittenIsLiteral | src/datahub_custom_sources/sources/informatica.py:73-74 | with backslash-free patterns, a table is ignored exactly when its name equals some pattern up to case, optionally followed by a newline |
| InfaSource.TableDataset | src/datahub_custom_sources/sources/informatica.py:76-90 | a table has no dataset exactly when its bare name or its qualified name is ignored, and otherwise is named by its qualified name |
| InfaSource.UnqualifiedDataset | src/datahub_custom_sources/sources/informatica.py:76-90 | a table without database or schema and no defaults keeps its bare name, and is dropped only when that name is ignored |
| InfaSource.SliceTo | src/datahub_custom_sources/sources/informatica.py:104 | a slice to n is the prefix of length n, capped at the length, with a negative n counting from the end |
| InfaSource.Preview | src/datahub_custom_sources/sources/informatica.py:108 | the preview is a prefix of the joined text of at most 4000 characters, and all of it when the text is that short |
| InfaSource.JobCustomProps | src/datahub_custom_sources/sources/informatica.py:97-109 | the properties keep the configured ones, set both counts, and add a digest and a preview exactly when transformation text is attached and there are snippets |
| InfaSource.PreviewBounds | src/datahub_custom_sources/sources/informatica.py:103-108 | the preview is at most 4000 characters and starts the joined snippets; one short snippet under a large cap is its own preview |
| InfaSource.InstanceDatasets | src/datahub_custom_sources/sources/informatica.py:203-213 | an instance has a dataset exactly when its table is not ignored, and that dataset is the table's qualified name |
| InfaSource.UpstreamFields | src/datahub_custom_sources/sources/informatica.py:224-229 | the upstream fields are exactly the resolved source pairs whose instance has a dataset, as fields of that dataset |
| InfaSource.FedFields | src/datahub_custom_sources/sources/informatica.py:219-231 | the fed fields are exactly the target instance's ports whose upstream search reaches a field of some source dataset |
| InfaSource.EmittedAppend | src/datahub_custom_sources/sources/informatica.py:233-238 | appending a justified mapping for a new field keeps every mapping justified and the fields distinct |
| InfaSource.CoveredAppend | src/datahub_custom_sources/sources/informatica.py:233-238 | appending a mapping keeps every covered field covered |
| InfaSource.MapField | src/datahub_custom_sources/sources/informatica.py:220-238 | one port yields a mapping into itself only when its search reaches a source dataset, justified by that search, and always does so when the search stays within the hop limit |
| InfaSource.TargetFieldMappings | src/datahub_custom_sources/sources/informatica.py:216-238 | a target instance gets justified mappings into distinct fields, at most one per fed field, and one for every fed field when every search stays within the hop limit |
| InfaSource.MappedAreFed | src/datahub_custom_sources/sources/informatica.py:216-238 | emitted mappings go into distinct fed fields |
| InfaSource.FedAreMapped | src/datahub_custom_sources/sources/informatica.py:216-238 | when every search stays within the hop limit, every fed field has its mapping |
| InfaSource.FedCount | src/datahub_custom_sources/sources/informatica.py:216-238 | there are at most as many mappings as fed fields, and exactly as many when every search stays within the hop limit |
| InfaSource.ResolvedExact | src/datahub_custom_sources/sources/informatica.py:223-229 | a search that visits everything reachable resolves to exactly the source fields reachable from the port |
| InfaSource.JustifiedFrom | src/datahub_custom_sources/sources/informatica.py:223-238 | the upstream fields of a resolved search justify the mapping into its port |
| EssbaseModels.HasFormulaSpec | examples/essbase-datahub-connector/src/essbase_datahub/models/essbase_models.py:90-91 | a member has a formula exactly when its formula is present and holds a non-whitespace character |
| EssbaseModels.ConsolidationOf | examples/essbase-datahub-connector/src/essbase_datahub/models/essbase_models.py:30-38 | looking up an operator symbol gives the consolidation with that symbol, if any |
| EssbaseModels.ConsolidationSymbols | examples/essbase-datahub-connector/src/essbase_datahub/models/essbase_models.py:30-38 | every consolidation is found from its own symbol, and exactly the seven symbols are accepted |
| EssbaseModels.GetMember | examples/essbase-datahub-connector/src/essbase_datahub/models/essbase_models.py:114-118 | a dimension's member lookup finds nothing exactly when no member has the name, and otherwise the first member with it |
| EssbaseModels.FindMember | examples/essbase-datahub-connector/src/essbase_datahub/models/essbase_models.py:114-118 | the lookup over a member list finds nothing exactly when no member has the name, and otherwise the first member with it |
| EssbaseModels.LastNamedUnique | examples/essbase-datahub-connector/src/essbase_datahub/extractors/schema_extractor.py:173 | two members that are each the last of one name are the same member: a name-keyed dictionary holds one member per name |
| EssbaseModels.LeafMembersSpec | examples/essbase-datahub-connector/src/essbase_datahub/models/essbase_models.py:120-121 | the leaf members are exactly the childless members, in outline order, interleaving with the others to the whole list |
| EssbaseModels.CalculatedMembersSpec | examples/essbase-datahub-connector/src/essbase_datahub/models/essbase_models.py:93-124 | the calculated members are exactly those whose storage is dynamic calc or dynamic calc and store, or that have a formula, in outline order, interleaving with the other members |
| EssbaseModels.DenseSparsePartition | examples/essbase-datahub-connector/src/essbase_datahub/models/essbase_models.py:150-154 | the dense and the sparse dimensions are exactly the dimensions of each storage type and interleave to the cube's dimensions |
| EssbaseSchema.MapDimensionType | src/datahub_custom_sources/extractors/essbase_schema.py:179-182 | a dimension is dense exactly when its storage type upper-cases to DENSE |
| EssbaseSchema.MapDimensionCategory | src/datahub_custom_sources/extractors/essbase_schema.py:184-191 | a missing type is standard; a value upper-casing to a category's own name gives that category; any other value is standard |
| EssbaseSchema.UpperCategoryValues | examples/essbase-datahub-connector/src/essbase_datahub/models/essbase_models.py:21-27 | the category values upper-case to the dictionary keys |
| EssbaseSchema.MapConsolidation | src/datahub_custom_sources/extractors/essbase_schema.py:193-203 | one of the seven operator symbols gives its consolidation, compared exactly; anything else, missing included, is addition |
| EssbaseSchema.MapStorage | src/datahub_custom_sources/extractors/essbase_schema.py:205-216 | an empty or missing value is stored data; otherwise the upper-cased value picks the storage whose key it equals, stored data when none |
| EssbaseSchema.MapperRoundTrips | examples/essbase-datahub-connector/src/essbase_datahub/extractors/schema_extractor.py:397-424 | the dimension-type, category and consolidation mappers (the same code in both connectors) read back every value of their enumeration |
| EssbaseSchema.StorageRoundTrip | examples/essbase-datahub-connector/src/essbase_datahub/extractors/schema_extractor.py:426-438 | the storage mapper (the same code in both connectors) reads back every storage value except dynamic_calc_store, which is no dictionary key and falls back to stored data |
| EssbaseSchema.StorageReadsBack | src/datahub_custom_sources/extractors/essbase_schema.py:205-216 | the storage mapper reads back every storage value other than dynamic_calc_store |
| EssbaseSchema.StorageFallsBack | src/datahub_custom_sources/extractors/essbase_schema.py:205-216 | the value dynamic_calc_store is read as stored data |
| EssbaseSchema.MappersIgnoreCase | src/datahub_custom_sources/extractors/essbase_schema.py:179-216 | the case-insensitive mappers give equal answers for values equal up to letter case |
| EssbaseSchema.ParseMember | src/datahub_custom_sources/extractors/essbase_schema.py:132-146 | a parsed member has no children yet, keeps the alias, formula and UDAs exactly when their flags are set, and otherwise has none of them |
| EssbaseSchema.KeptCount | src/datahub_custom_sources/extractors/essbase_schema.py:107-112 | the capped extractor keeps at most as many members as there are records |
| EssbaseSchema.CollectMembers | src/datahub_custom_sources/extractors/essbase_schema.py:107-112 | the kept members are the parsed first records, as many as the cap allows with the check after each one: at least one and at most the cap (or one) for a non-empty stream |
| EssbaseSchema.ChildNamesSpec | examples/essbase-datahub-connector/src/essbase_datahub/extractors/schema_extractor.py:175-180 | the child names of a parent (built by the same loop in both connectors) are exactly the names of members that name it as their parent |
| EssbaseSchema.LastIndexNamed | src/datahub_custom_sources/extractors/essbase_schema.py:110 | the dictionary's member for a name is the last member with that name, or none when no member has it |
| EssbaseSchema.FeedsOnly | src/datahub_custom_sources/extractors/essbase_schema.py:114-118 | a member is appended to at most one member's children: the last member named after its non-empty parent |
| EssbaseSchema.LinkChildren | src/datahub_custom_sources/extractors/essbase_schema.py:114-118 | linking keeps the members and gives each member its parsed children followed by what the linking loop appended to it |
| EssbaseSchema.LinkedChildrenSpec | src/datahub_custom_sources/extractors/essbase_schema.py:114-118 | a freshly parsed member that the dictionary holds for its non-empty name ends up with exactly the names of the members whose parent it is, each once, in first-seen order |
| EssbaseSchema.UnlinkedKeepChildren | src/datahub_custom_sources/extractors/essbase_schema.py:114-118 | a member that is not the dictionary's entry for a non-empty name keeps the children it was parsed with |
| EssbaseSchema.RefreshFormula | src/datahub_custom_sources/extractors/essbase_schema.py:120-128 | only the formula may change, and only for a calculated member or one with a formula when formulas are included; then a detail record with a "formula" key sets the formula to its value, null included, and a failed call or a record without the key leaves the member unchanged |
| EssbaseSchema.ExtractMembers | src/datahub_custom_sources/extractors/essbase_schema.py:103-130 | the extracted members are the capped stream parsed, with the linked children and the refreshed formulas |
| EssbaseSchema.ExtractedChildren | src/datahub_custom_sources/extractors/essbase_schema.py:103-130 | in the extracted members, the last member of a non-empty name lists, once each, exactly the kept records that name it as parent |
| EssbaseSchema.MemberDescription | examples/essbase-datahub-connector/src/essbase_datahub/extractors/schema_extractor.py:381 | a member's description is its comment when that is non-empty, else its alias |
| EssbaseSchema.MemberTags | examples/essbase-datahub-connector/src/essbase_datahub/extractors/schema_extractor.py:355-361 | a member field is tagged calculated, formula and shared exactly when the member is dynamic, has a formula, or is shared |
| EssbaseSchema.TagList | examples/essbase-datahub-connector/src/essbase_datahub/extractors/schema_extractor.py:355-361 | each of the three tags is present exactly when its condition holds, and no other tag appears |
| EssbaseSchema.MemberTagsOrdered | examples/essbase-datahub-connector/src/essbase_datahub/extractors/schema_extractor.py:355-361 | the tags come in the order calculated, formula, shared |
| EssbaseSchema.TagListOrdered | examples/essbase-datahub-connector/src/essbase_datahub/extractors/schema_extractor.py:355-361 | the tag list is ordered by tag rank |
| EssbaseSchema.MemberToSchemaField | examples/essbase-datahub-connector/src/essbase_datahub/extractors/schema_extractor.py:349-391 | a member's field carries the member's name, the member type, its tags and no nested fields |
| EssbaseSchema.RootMembersSpec | examples/essbase-datahub-connector/src/essbase_datahub/extractors/schema_extractor.py:317 | the root members are exactly those without a parent or at level 0, in outline order |
| EssbaseSchema.DimensionFieldType | examples/essbase-datahub-connector/src/essbase_datahub/extractors/schema_extractor.py:308-313 | an accounts dimension is a measure field, a time dimension a date field, any other a dimension field |
| EssbaseSchema.DimensionToSchemaField | examples/essbase-datahub-connector/src/essbase_datahub/extractors/schema_extractor.py:306-347 | a dimension's field is typed by its category, tagged with its storage type and category, and nests the fields of its first 100 root members |
| EssbaseSchema.CubeSchemaFields | examples/essbase-datahub-connector/src/essbase_datahub/extractors/schema_extractor.py:249-262 | a cube's fields are one field per dimension, in order, followed by one more |
| EssbaseSchema.MeasuresFieldLast | examples/essbase-datahub-connector/src/essbase_datahub/extractors/schema_extractor.py:255-262 | the last field is the measures field, and it is the only field of type double |
| EssbaseSchema.FlatTypeOf | src/datahub_custom_sources/extractors/essbase_schema.py:152-156 | an accounts dimension is a number field, a time dimension a date field, any other a string field |
| EssbaseSchema.DimensionBlockSpec | src/datahub_custom_sources/extractors/essbase_schema.py:151-175 | a dimension's block starts with its own field, path the dimension name and typed by category, then one string field per member in outline order with path Dim.Member, as many as the slice to the cap allows |
| EssbaseSchema.BuildSchemaFieldsSnoc | src/datahub_custom_sources/extractors/essbase_schema.py:148-177 | the field list is the dimensions' blocks one after the other: none for no dimensions, and one more dimension appends its block |
| EssbaseLineage.ConsolidationToTransform | examples/essbase-datahub-connector/src/essbase_datahub/extractors/lineage_extractor.py:211-222 | the aggregation is SUM exactly for the plus operator or an unknown one |
| EssbaseLineage.ConsolidationTransformsDistinct | examples/essbase-datahub-connector/src/essbase_datahub/extractors/lineage_extractor.py:211-222 | the seven operators map to seven different aggregations |
| EssbaseLineage.LookupMember | examples/essbase-datahub-connector/src/essbase_datahub/extractors/lineage_extractor.py:185-192 | looking a child up in the name-keyed dictionary finds nothing exactly when no member has the name, and otherwise the last member with it |
| EssbaseLineage.MemberMapGet | examples/essbase-datahub-connector/src/essbase_datahub/extractors/lineage_extractor.py:185 | the dictionary built in member order holds, for each name present, the last member with that name |
| EssbaseLineage.ChildMappingSpec | examples/essbase-datahub-connector/src/essbase_datahub/extractors/lineage_extractor.py:191-207 | one child yields an edge exactly when it names a member of the dimension, with source Dim.child, target Dim.parent and the child's operator before its name |
| EssbaseLineage.ChildEdgeSnoc | examples/essbase-datahub-connector/src/essbase_datahub/extractors/lineage_extractor.py:191-207 | the edges from a parent's children are those from all but the last, plus the last child's |
| EssbaseLineage.ChildMappingsSpec | examples/essbase-datahub-connector/src/essbase_datahub/extractors/lineage_extractor.py:187-207 | the edges into a parent are exactly those from its listed children that exist in the dimension |
| EssbaseLineage.DimensionConsolidationSpec | examples/essbase-datahub-connector/src/essbase_datahub/extractors/lineage_extractor.py:184-207 | a dimension gives one consolidation mapping per parent and existing child: source Dim.child, target Dim.parent, the child's operator before its name, and the operator's aggregation |
| EssbaseLineage.ConsolidationLineageSpec | examples/essbase-datahub-connector/src/essbase_datahub/extractors/lineage_extractor.py:175-209 | the cube's consolidation lineage holds an edge exactly when some dimension has it |
| EssbaseLineage.Quoted | examples/essbase-datahub-connector/src/essbase_datahub/extractors/lineage_extractor.py:348 | every member of a dimension is quoted once, in order |
| EssbaseLineage.FilterParts | examples/essbase-datahub-connector/src/essbase_datahub/extractors/lineage_extractor.py:344-349 | there are no clauses exactly when every entry of the scope is the unresolved one |
| EssbaseLineage.FilterPartsSpec | examples/essbase-datahub-connector/src/essbase_datahub/extractors/lineage_extractor.py:344-349 | the clauses are those of the resolved entries, in the scope's order |
| EssbaseLineage.FixContextToFilter | examples/essbase-datahub-connector/src/essbase_datahub/extractors/lineage_extractor.py:339-351 | there is no filter exactly when there is no scope or only the unresolved entry; otherwise the resolved clauses joined with AND |
| EssbaseLineage.DelimitedAt | examples/essbase-datahub-connector/src/essbase_datahub/extractors/lineage_extractor.py:108-110 | a delimited name match is non-empty and holds no closing character |
| EssbaseLineage.DoubleQuotedAt | examples/essbase-datahub-connector/src/essbase_datahub/extractors/lineage_extractor.py:108 | a double-quoted name is non-empty and holds no double quote |
| EssbaseLineage.SingleQuotedAt | examples/essbase-datahub-connector/src/essbase_datahub/extractors/lineage_extractor.py:109 | a single-quoted name is non-empty and holds no single quote |
| EssbaseLineage.BracketedAt | examples/essbase-datahub-connector/src/essbase_datahub/extractors/lineage_extractor.py:110 | a bracketed name is non-empty and holds no closing bracket |
| EssbaseLineage.DelimitedRoundTrip | examples/essbase-datahub-connector/src/essbase_datahub/extractors/lineage_extractor.py:108-110 | a name written between its delimiters is read back whole |
| EssbaseLineage.RefDimMemberAt | examples/essbase-datahub-connector/src/essbase_datahub/extractors/lineage_extractor.py:111 | a Dim->Member match has a non-empty dimension and a non-empty member made of member characters |
| EssbaseLineage.RefDimMemberRoundTrip | examples/essbase-datahub-connector/src/essbase_datahub/extractors/lineage_extractor.py:111 | Dim->Member written out is read back as the pair, the member ending at the first character outside its class |
| EssbaseLineage.LastCalled | examples/essbase-datahub-connector/src/essbase_datahub/extractors/lineage_extractor.py:144-147 | the scan finds the last of the tags the formula calls, or none |
| EssbaseLineage.TagFoldLast | examples/essbase-datahub-connector/src/essbase_datahub/extractors/lineage_extractor.py:144-147 | trying the tags in order leaves the last one found, and the starting value when none is |
| EssbaseLineage.AggregationTag | examples/essbase-datahub-connector/src/essbase_datahub/extractors/lineage_extractor.py:134-147 | a formula's aggregation is that of the last function in the fixed order it calls, none when it calls none |
| EssbaseLineage.ParentValueWins | examples/essbase-datahub-connector/src/essbase_datahub/extractors/lineage_extractor.py:134-147 | a formula calling @PARENTVAL is tagged PARENT_VALUE whatever else it calls |
| EssbaseLineage.NoCallNoTag | examples/essbase-datahub-connector/src/essbase_datahub/extractors/lineage_extractor.py:134-147 | a formula calling none of the functions carries no aggregation |
| EssbaseLineage.ResolveMemberDimension | examples/essbase-datahub-connector/src/essbase_datahub/extractors/lineage_extractor.py:163-169 | a name resolves to nothing exactly when no dimension has such a member, and otherwise to the first dimension that has one |
| EssbaseLineage.DimensionNamed | examples/essbase-datahub-connector/src/essbase_datahub/extractors/lineage_extractor.py:161 | the cached name gives no dimension exactly when none has that name, and otherwise a dimension with it |
| EssbaseLineage.CacheKeyInjective | examples/essbase-datahub-connector/src/essbase_datahub/extractors/lineage_extractor.py:157 | within one cube the cache key tells the member name |
| EssbaseLineage.ResolveCachedAgrees | examples/essbase-datahub-connector/src/essbase_datahub/extractors/lineage_extractor.py:151-169 | with distinct dimension names, a cache that agrees with the cube gives the scan's answer and still agrees afterwards |
| EssbaseLineage.EmptyCacheSound | examples/essbase-datahub-connector/src/essbase_datahub/extractors/lineage_extractor.py:60 | the empty cache agrees with every cube |
| EssbaseLineage.ParseFormulaReferences | examples/essbase-datahub-connector/src/essbase_datahub/extractors/lineage_extractor.py:98-149 | one reference per quoted name and per Dim->Member pair, every reference carrying the formula's aggregation |
| EssbaseLineage.QuotedReferencesSpec | examples/essbase-datahub-connector/src/essbase_datahub/extractors/lineage_extractor.py:114-132 | the references begin with the quoted names in the order found, each filed under the first dimension that has it, else the formula's own |
| EssbaseLineage.ArrowReferencesSpec | examples/essbase-datahub-connector/src/essbase_datahub/extractors/lineage_extractor.py:116-123 | after the quoted names come the Dim->Member pairs, as written |
| EssbaseLineage.QuotedRefs | examples/essbase-datahub-connector/src/essbase_datahub/extractors/lineage_extractor.py:124-132 | each quoted name gives one reference, filed under its dimension |
| EssbaseLineage.QuotedDimensionFiled | examples/essbase-datahub-connector/src/essbase_datahub/extractors/lineage_extractor.py:126-127 | a quoted name is filed under the first dimension that has it, else the formula's own dimension |
| EssbaseLineage.ArrowRefs | examples/essbase-datahub-connector/src/essbase_datahub/extractors/lineage_extractor.py:116-123 | each Dim->Member pair gives one reference with that dimension and member |
| EssbaseLineage.FormulaMappings | examples/essbase-datahub-connector/src/essbase_datahub/extractors/lineage_extractor.py:76-94 | a member without a formula has no mappings; one with a formula has one per reference, into Dim.Member, typed member_formula and carrying the formula |
| EssbaseLineage.DimensionFormulaLineageSpec | examples/essbase-datahub-connector/src/essbase_datahub/extractors/lineage_extractor.py:76-94 | a dimension's formula lineage is the union of its members' mappings |
| EssbaseLineage.MemberFormulaLineageSpec | examples/essbase-datahub-connector/src/essbase_datahub/extractors/lineage_extractor.py:66-96 | the member-formula lineage of a cube is the union of its members' mappings, each reading one reference of the member's formula |
| EssbaseLineage.FormulaEdgeTarget | examples/essbase-datahub-connector/src/essbase_datahub/extractors/lineage_extractor.py:84-94 | a member-formula mapping leads into a member with a formula, carries that formula, and is typed member_formula |
| EssbaseLineage.Row | examples/essbase-datahub-connector/src/essbase_datahub/extractors/lineage_extractor.py:271-281 | one source paired with every target, in order |
| EssbaseLineage.PairsSpec | examples/essbase-datahub-connector/src/essbase_datahub/extractors/lineage_extractor.py:271-281 | there is one pair per source and target, and nothing else |
| EssbaseLineage.Ends | examples/essbase-datahub-connector/src/essbase_datahub/extractors/lineage_extractor.py:271-281 | the source and target fields of the mappings, in order |
| EssbaseLineage.TransformMappingsSpec | examples/essbase-datahub-connector/src/essbase_datahub/extractors/lineage_extractor.py:270-311 | every mapping of a statement carries its scope's filter; a formula links every source to every target, source by source; a copy gives one mapping; an aggregation or CALC DIM one Dim.* mapping per dimension |
| EssbaseLineage.MissingAndZeroLines | examples/essbase-datahub-connector/src/essbase_datahub/extractors/lineage_extractor.py:259-264 | a missing line and line 0 are labelled differently, yet both take the random suffix in the identifier |
| EssbaseLineage.CalcScriptToJob | examples/essbase-datahub-connector/src/essbase_datahub/extractors/lineage_extractor.py:248-337 | one step per statement, in order, each with the statement's operation type and FIX scope; the cube is the only input and output |
| EssbaseLineage.CalcScriptLineage | examples/essbase-datahub-connector/src/essbase_datahub/extractors/lineage_extractor.py:258-313 | the job's lineage holds exactly the mappings of its statements |
| EssbaseLineage.OperationIdsDiffer | examples/essbase-datahub-connector/src/essbase_datahub/extractors/lineage_extractor.py:259 | two known, different lines give different identifiers |
| EssbaseLineage.OperationIdsDistinct | examples/essbase-datahub-connector/src/essbase_datahub/extractors/lineage_extractor.py:258-313 | statements with known line numbers in increasing order give steps with distinct identifiers, whatever the random suffixes |
| EssbaseLineage.ParsedScriptOperationIds | examples/essbase-datahub-connector/src/essbase_datahub/extractors/lineage_extractor.py:258-313 | the statements parsed from a script's text always have increasing known lines, so its steps have distinct identifiers |
| EssbaseLineage.LoadSourceDataset | examples/essbase-datahub-connector/src/essbase_datahub/extractors/lineage_extractor.py:403-407 | an SQL source is named sql:// plus its connection, and a rule without a data source reads external_source |
| EssbaseLineage.LoadRuleToJob | examples/essbase-datahub-connector/src/essbase_datahub/extractors/lineage_extractor.py:390-445 | one mapping per field mapping, in order, from the source dataset into the cube's dimension; the job reads the source and writes the cube |
| EssbaseLineage.LoadRuleDefaults | examples/essbase-datahub-connector/src/essbase_datahub/extractors/lineage_extractor.py:403-414 | a mapping without a source field reads field_n, n defaulting to 0; an SQL source is named after its connection, unknown when it has none |
| CalcParser.ParenGroupAt | examples/essbase-datahub-connector/src/essbase_datahub/extractors/calc_extractor.py:56 | a parenthesised group ends within the text and holds no closing parenthesis |
| CalcParser.SetVarAt | examples/essbase-datahub-connector/src/essbase_datahub/extractors/calc_extractor.py:45-48 | a SET declaration is global and always carries a value |
| CalcParser.VarDefAt | examples/essbase-datahub-connector/src/essbase_datahub/extractors/calc_extractor.py:50-53 | a VAR declaration is local |
| CalcParser.FixStartAt | examples/essbase-datahub-connector/src/essbase_datahub/extractors/calc_extractor.py:55-58 | a FIX's member list holds no closing parenthesis |
| CalcParser.MemberRefAt | examples/essbase-datahub-connector/src/essbase_datahub/extractors/calc_extractor.py:105-107 | a quoted or bracketed member name is non-empty |
| CalcParser.DimMemberAt | examples/essbase-datahub-connector/src/essbase_datahub/extractors/calc_extractor.py:109-111 | a Dim->Member match has a non-empty dimension and a non-empty member |
| CalcParser.NoEqualsNoSet | examples/essbase-datahub-connector/src/essbase_datahub/extractors/calc_extractor.py:45-48 | without an equals sign no SET declaration matches |
| CalcParser.NoEqualsBareVars | examples/essbase-datahub-connector/src/essbase_datahub/extractors/calc_extractor.py:50-53 | without an equals sign every VAR declaration is local and has no value |
| CalcParser.VarDefBare | examples/essbase-datahub-connector/src/essbase_datahub/extractors/calc_extractor.py:50-53 | without an equals sign a VAR declaration found anywhere has no value |
| CalcParser.NoEqualsNoValues | examples/essbase-datahub-connector/src/essbase_datahub/extractors/calc_extractor.py:142-162 | a script without an equals sign declares no global variable, and its VARs carry no value |
| CalcParser.CrossDimNeverInFix | examples/essbase-datahub-connector/src/essbase_datahub/extractors/calc_extractor.py:221-230 | the text a FIX captures stops at the first closing parenthesis, so the cross-dimensional form is never found inside it |
| CalcParser.FixMembersSpec | examples/essbase-datahub-connector/src/essbase_datahub/extractors/calc_extractor.py:209-242 | every dimension lists exactly its Dim->Member members in order; the unresolved entry is present exactly when some quoted name is filed under no dimension, and lists those names in order |
| CalcParser.MergeContextsSpec | examples/essbase-datahub-connector/src/essbase_datahub/extractors/calc_extractor.py:244-252 | the merged scope names every dimension of the stack once, in first-seen order, and under each the members the stacked FIXes list for it, once each, in first-seen order |
| CalcParser.MergedMembers | examples/essbase-datahub-connector/src/essbase_datahub/extractors/calc_extractor.py:244-252 | a member of the merged scope is listed once and appears under that dimension in one of the stacked FIXes |
| CalcParser.Targets | examples/essbase-datahub-connector/src/essbase_datahub/extractors/calc_extractor.py:265 | one target per comma-separated piece, none holding a comma or opening or closing with a quote |
| CalcParser.TargetsRoundTrip | examples/essbase-datahub-connector/src/essbase_datahub/extractors/calc_extractor.py:265 | plain names listed with commas come back as the targets, in order |
| CalcParser.Recognize | examples/essbase-datahub-connector/src/essbase_datahub/extractors/calc_extractor.py:254-338 | a line is a statement exactly when one of the six patterns matches; the first in the order AGG, CALC DIM, CALC ALL, DATACOPY, CLEARDATA, member formula decides the operation: AGG and CALC DIM give their argument pieces as targets, CALC ALL aggregates `ALL`, DATACOPY carries the two regions, CLEARDATA clears its region, a formula targets its member with the formula's members as sources; only formulas have sources or an expression and only copies have regions |
| CalcParser.ParseOperation | examples/essbase-datahub-connector/src/essbase_datahub/extractors/calc_extractor.py:254-338 | an operation exists exactly when the line is recognised, and is the recognised operation with its targets, sources, formula and regions, plus the line number and the scope it was given |
| CalcParser.FormulaMembersSpec | examples/essbase-datahub-connector/src/essbase_datahub/extractors/calc_extractor.py:340-356 | a formula's source members are its quoted names and then its Dim->Member strings, each once, in first-seen order |
| CalcParser.DataCopySourceHasNoT | examples/essbase-datahub-connector/src/essbase_datahub/extractors/calc_extractor.py:80-83 | a DATACOPY source region never contains the letter T in either case |
| CalcParser.BudgetIsNoCopy | examples/essbase-datahub-connector/src/essbase_datahub/extractors/calc_extractor.py:80-83 | DATACOPY Budget TO Forecast; is no copy, since Budget holds a t |
| CalcParser.NoAggInCalcAll | examples/essbase-datahub-connector/src/essbase_datahub/extractors/calc_extractor.py:65-68 | CALC ALL; holds no AGG statement |
| CalcParser.NoCalcDimInCalcAll | examples/essbase-datahub-connector/src/essbase_datahub/extractors/calc_extractor.py:70-73 | CALC ALL; is not a CALC DIM statement |
| CalcParser.AggRoundTrip | examples/essbase-datahub-connector/src/essbase_datahub/extractors/calc_extractor.py:263-272 | `AGG(d1,…,dn);` over plain names is an aggregation of exactly those names |
| CalcParser.AggAtGroup | examples/essbase-datahub-connector/src/essbase_datahub/extractors/calc_extractor.py:263-265 | `AGG(j);` matches at the start with `j` as its argument list |
| CalcParser.CalcAllIsAggregation | examples/essbase-datahub-connector/src/essbase_datahub/extractors/calc_extractor.py:286-294 | CALC ALL; is an aggregation of ALL |
| CalcParser.Classify | examples/essbase-datahub-connector/src/essbase_datahub/extractors/calc_extractor.py:178-205 | a statement line is neither blank nor a comment, and its operation keeps the stripped line |
| CalcParser.ClassifySpec | examples/essbase-datahub-connector/src/essbase_datahub/extractors/calc_extractor.py:178-194 | a line is skipped exactly when blank or a comment; a FIX exactly when the FIX pattern occurs anywhere in it; an ENDFIX exactly when it has no FIX and starts with ENDFIX |
| CalcParser.Kinds | examples/essbase-datahub-connector/src/essbase_datahub/extractors/calc_extractor.py:176-205 | every line is classified, in order |
| CalcParser.StatementTransform | examples/essbase-datahub-connector/src/essbase_datahub/extractors/calc_extractor.py:196-202 | a statement line adds what parsing the operation gives for its number and the open scope |
| CalcParser.UnbalancedEndFixIgnored | examples/essbase-datahub-connector/src/essbase_datahub/extractors/calc_extractor.py:191-194 | an ENDFIX with no open FIX changes nothing |
| CalcParser.FixThenEndFix | examples/essbase-datahub-connector/src/essbase_datahub/extractors/calc_extractor.py:184-194 | an ENDFIX undoes the FIX before it |
| CalcParser.StatementContext | examples/essbase-datahub-connector/src/essbase_datahub/extractors/calc_extractor.py:196-202 | a line adds at most one transform, scoped by the merged open FIXes (none outside every FIX) and carrying its own line number |
| CalcParser.OpenFixStaysOpen | examples/essbase-datahub-connector/src/essbase_datahub/extractors/calc_extractor.py:184-194 | lines other than ENDFIX lines never close a scope |
| CalcParser.UnclosedFixScopes | examples/essbase-datahub-connector/src/essbase_datahub/extractors/calc_extractor.py:184-202 | a FIX left open scopes every later statement |
| CalcParser.LineNumbers | examples/essbase-datahub-connector/src/essbase_datahub/extractors/calc_extractor.py:175-202 | every transform comes from the statement on its line, with line numbers increasing |
| CalcParser.FromLineOnLine | examples/essbase-datahub-connector/src/essbase_datahub/extractors/calc_extractor.py:170-202 | a transform's line number points at a line of the script that holds its statement |
| CalcParser.ScriptLineNumbers | examples/essbase-datahub-connector/src/essbase_datahub/extractors/calc_extractor.py:164-207 | line numbers are 1-based and count every line, skipped ones included; each transform keeps the stripped text of its line, and the numbers increase |
| CalcParser.SetsDeclared | examples/essbase-datahub-connector/src/essbase_datahub/extractors/calc_extractor.py:146-152 | every SET match found is a global with a value, declared at some position of the script |
| CalcParser.VarsDeclared | examples/essbase-datahub-connector/src/essbase_datahub/extractors/calc_extractor.py:154-160 | every VAR match found is a local, declared at some position of the script |
| CalcParser.ExtractVariablesSpec | examples/essbase-datahub-connector/src/essbase_datahub/extractors/calc_extractor.py:142-162 | every extracted variable is declared in the script with its scope's keyword, globals carry a value, and all globals precede all locals |
| CalcParser.ReferenceEntriesIn | examples/essbase-datahub-connector/src/essbase_datahub/extractors/calc_extractor.py:358-376 | a line contributes member x under key k exactly when (k, x) is a Dim->Member pair of the line, or k is _uncategorized_ and x a quoted name |
| CalcParser.ReferenceEntriesKeys | examples/essbase-datahub-connector/src/essbase_datahub/extractors/calc_extractor.py:358-376 | a line contributes a key exactly for the dimensions of its pairs, and _uncategorized_ when it quotes a name |
| CalcParser.ExtractMemberReferencesSpec | examples/essbase-datahub-connector/src/essbase_datahub/extractors/calc_extractor.py:358-376 | after a line each known list is kept as a prefix, stays repeat-free, and holds x exactly when it held it before or the line pairs x with that key (or quotes it, under _uncategorized_) |
| CalcParser.ExtractMemberReferencesKeys | examples/essbase-datahub-connector/src/essbase_datahub/extractors/calc_extractor.py:358-376 | a key is present after a line exactly when it was known or the line adds a member under it |

## Left out

- Text.Upper, Text.Lower and Text.IsWordChar: Python's `str.upper()`, `str.lower()`, `re.I` and Unicode `\w` are modelled over ASCII only. Non-ASCII letters neither change case nor count as word characters. Whitespace follows Python's full `str.isspace` set. Every scanner and mapper built on these inherits the restriction, as the next lines say.
- OracleRunner.JobId: lower-cases "owner.name" over ASCII letters only.
- OracleProc.FindProcedureCalls: identifiers are ASCII word characters, and they are upper-cased over ASCII only. The same holds for the line classification of OracleProc.ParseProcedureSubsteps.
- AutosysJil.UpstreamJobNames: the status letter must be an ASCII letter, as in the program's `[a-zA-Z]`. The JIL parser lower-cases keys over ASCII only.
- EssbaseSchema.MapDimensionType: this mapper, and the category and storage mappers, upper-case over ASCII only. The calc-script keywords of CalcParser are matched case-insensitively over ASCII only.
- InfaSource.TargetFieldMappings: the ports of the target instance are visited in an order the model leaves open. The ports are a set here, but the program iterates a dictionary in insertion order. The contract therefore fixes which mappings appear, and how many, but not their order.
- InfaEmit and InfaSource: the URN builders (`make_dataset_urn`, `make_schema_field_urn`, the data flow and job URNs) are abstract function parameters. The SHA-256 digest of the SQL snippets is a `string -> string` parameter. No property relies on their injectivity.
- EssbaseSchema.KeptCount: its own contract only bounds the count by the stream length. EssbaseSchema.CollectMembers states the cap behaviour in full.
- InfaSource.UpstreamFields: the upstream fields of a mapping are a set. The program builds a list, which repeats a field when two source instances resolve to the same dataset field. The model keeps one copy.
- EssbaseSchema.ParseMember and EssbaseLineage.LoadRuleToJob: a record field is an `Option`, so a JSON `null` and a missing key read the same. Python's `.get(key, default)` gives the default only for a missing key, and `None` for an explicit `null`.
- AbInitio.LoadIoMapping: decoded JSON objects are field lists that the model does not require to have distinct keys. `json.load` keeps the last of repeated keys, so the objects it produces never repeat one, and only such objects are meant. On a repeated key, `ListField` would read the first binding.
- OracleProc.ParseDmlStatement and OracleProc.ParseExecuteImmediate: the 16-character SHA-256 prefix `query_hash` is not computed. No lineage property reads it.
- Paths.ExpandPaths: the results are the path strings as given, not `Path` objects. `Path` normalisation, such as dropping a trailing `/` or a leading `./`, is left to the `resolve` parameter, which decides duplicates.
- PortGraph.ResolveUpstreamSourceFields: completeness (every reachable pair is visited) is stated only when the search stays within `max_hops`. Past the cut-off, which pairs were visited depends on the stack order, and the model promises only soundness and the bound.
- XML parsing with ElementTree (`InformaticaXMLParser.parse_*`, `parse_informatica_folder_xml`, `parse_dtsx`): the models take the extracted records. Only the ordering logic of `_parse_workflow` is modelled.
- SQL parsing with sqlglot (`SQLLineageParser.parse_sql`, the parse step of `_parse_with_sqlglot`, the AST branch of `extract_sql_tables`, `extract_select_column_lineage`): a parsed statement is given as the facts the resolvers read.
- DataHub emission: the MCP and aspect construction in `emit_workflow`, `emit_session_as_datajob`, `emit_transformation_datajobs`, `build_stored_procedure_refs`, `build_stored_procedure_dataset_refs` and `_build_dataset_urn`; `flush` and `test_connection`; every `get_workunits`; `_emit_mapping` and `_emit_platform_instance` of the pmrep source; and the orchestration class `InformaticaLineageExtractor`. These are thin wrappers over the SDK.
- Statistics, descriptions, timestamps, custom-property bags and summaries that the emitters attach to aspects (`get_lineage_summary`, `_parse_timestamp`, `_safe_int`) are not modelled. They decide nothing about lineage.
- Network, process and file I/O: both Essbase clients, the Oracle connection and queries (`_connect`, `poll_vsql`, `extract_procedures`), the polling loop with `time.sleep`, `pmrep.py`, subprocess helpers, and reading files. File contents and decoded JSON arrive as values, and one polling cycle is modelled.
- Logging and the exception handlers that only log (for example the per-member formula fetch of the Essbase source) are not modelled. A failed call becomes "no value" where the program then carries on.
- Floating point: confidence scores are exact hundredths, so `min` over them has no rounding.
- Python `set` iteration order (successors in `_get_transformation_order`, nested calls in `parse_procedure_substeps`, table sets of the runner): the model picks an arbitrary order, and no property depends on it.

## Findings

| source | as written | input that shows it | evidently intended | confidence | as-written member | corrected member |
|---|---|---|---|---|---|---|
| src/datahub_custom_sources/extractors/oracle_stored_proc.py:285-292 | the statement collection starts with `stmt_lines = [line]` and `j = i` for the 1-based line `i`, so the line after the statement's first is checked for `;` but never appended | the lines `INSERT INTO t` and `SELECT a FROM s;`: the snippet is `INSERT INTO t`, so table `s` is never read | the statement's consecutive lines up to and including the first holding `;` | not executed | OracleProc.CollectDropsSecondLine | OracleProc.StatementLines |
| src/datahub_custom_sources/extractors/oracle_stored_proc.py:177-184 | the write target is group 2 of `\b(INSERT\|UPDATE\|DELETE\|MERGE)\s+(?:INTO\s+)?(\w+(?:\.\w+)*)`, whose optional group skips INTO but not FROM, while the comment says the first table is the written target | `DELETE FROM orders WHERE id = 1`: the table `FROM` is recorded as written and `ORDERS` as read | `DELETE FROM t` writes `t`: FROM is passed over as INTO is | not executed | OracleProc.DeleteFromQuirk | OracleProc.ParseDmlStatementIntended |
| src/datahub_custom_sources/sources/informatica.py:31-34 | `re.escape` leaves `%` and `_` unescaped on Python 3.7 and later, so the replacements of `\%` and `\_` never fire and a pattern matches only its own text, ignoring case | the ignore pattern `DUMMY_%` and the table `DUMMY_T1`: the table is not ignored | SQL LIKE: `%` matches any run and `_` one character | not executed | InfaSource.DummyPatternAsWritten | InfaSource.DummyPatternLike |

In every row the model of the program follows the code as written. For the collection loop that is `OracleProc.CollectStatement` and `OracleProc.Snippet`, which `OracleProc.ParseProcedureSubsteps` uses. For the DELETE target it is `OracleProc.ParseDmlStatement`. For the ignore patterns it is `InfaSource.TableDataset`. The corrected definitions stand beside them:
- `OracleProc.StatementLines`, related to the loop by `OracleProc.CollectedSkipsNext`;
- `OracleProc.ParseDmlStatementIntended`, with `OracleProc.DeleteFromIntended` proved about it and `OracleProc.IntendedAgrees` showing that it changes nothing where no DML keyword is followed by FROM;
- `InfaSource.MatchesLike`, with `InfaSource.LikePrefix` and `InfaSource.LikeWithoutWildcards` proved about it.
