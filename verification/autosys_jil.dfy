/** The AutoSys JIL reader: a line-by-line parser of `insert_job:` blocks
    into jobs and boxes, the upstream job names of a job's condition, and
    the merge of several exports into one. */
module AutosysJil {
  import opened Basics
  import opened Text
  import opened Scan
  import opened OrderedMap

  /** One job; `raw` holds every `key: value` line under its lower-cased key. */
  datatype Job = Job(
    name: string,
    jobType: string,
    boxName: Option<string>,
    command: Option<string>,
    condition: Option<string>,
    raw: map<string, string>)

  const DefaultJobType := "command"

  function NewJob(name: string): Job {
    Job(name, DefaultJobType, None, None, None, map[])
  }

  /** The jobs by name and, for every box, the names of the jobs in it. */
  datatype Export = Export(jobs: OMap<string, Job>, boxes: OMap<string, set<string>>)

  const EmptyExport := Export([], [])

  /* ---------------- upstream conditions ---------------- */

  predicate NotCloseParen(c: char) { c != ')' }

  /** `\b[a-zA-Z]\(([^\)]+)\)`: a status function letter, then the job name
      up to the first closing parenthesis. */
  function StatusCallAt(s: string, p: nat): (r: Option<Hit<string>>)
    ensures r.Some? ==> p < r.value.end <= |s|
    ensures r.Some? ==> r.value.value != [] && ')' !in r.value.value
  {
    if !StartsWord(s, p) || !IsLetter(s[p]) || p + 1 >= |s| || s[p + 1] != '(' then None
    else
      var e := RunEnd(s, p + 2, NotCloseParen);
      if e == p + 2 || e == |s| then None
      else Some(Hit(s[p + 2..e], e + 1))
  }

  /** The names inside `x(NAME)` of the job's condition; none without one. */
  function UpstreamJobNames(job: Job): (r: set<string>)
    ensures !Truthy(job.condition) ==> r == {}
    ensures Truthy(job.condition) ==> forall x :: x in r <==> x in FindAll(job.condition.value, 0, StatusCallAt)
  {
    if !Truthy(job.condition) then {}
    else set x | x in FindAll(job.condition.value, 0, StatusCallAt)
  }

  /** Every upstream name is non-empty and holds no closing parenthesis. */
  lemma UpstreamNamesShape(job: Job, x: string)
    requires x in UpstreamJobNames(job)
    ensures x != [] && ')' !in x
  {
    var s := job.condition.value;
    FindAllFrom(s, 0, StatusCallAt, x);
    var k, h :| 0 <= k <= |s| && StatusCallAt(s, k) == Some(h) && h.value == x;
  }

  /** A condition made of one status call names exactly that job. */
  lemma {:induction false} UpstreamOfOneCall(job: Job, status: char, name: string)
    requires IsLetter(status) && name != [] && ')' !in name
    requires job.condition == Some([status] + "(" + name + ")")
    ensures UpstreamJobNames(job) == {name}
  {
    var s := [status] + "(" + name + ")";
    assert s[0] == status && s[1] == '(';
    assert s[2..|s| - 1] == name;
    var e := RunEnd(s, 2, NotCloseParen);
    assert forall k :: 2 <= k < |s| - 1 ==> NotCloseParen(s[k]) by {
      forall k | 2 <= k < |s| - 1 ensures NotCloseParen(s[k]) {
        assert s[k] == name[k - 2];
      }
    }
    assert s[|s| - 1] == ')';
    assert e == |s| - 1;
    assert StatusCallAt(s, 0) == Some(Hit(name, |s|));
    FindAllNone(s, |s|, StatusCallAt);
    assert FindAll(s, 0, StatusCallAt) == [name] + FindAll(s, |s|, StatusCallAt);
  }

  /** `x(NAME)` at `p` closing at `c`, read off the characters: a letter at
      the start of a word, an opening parenthesis, then a non-empty name
      running up to the first closing parenthesis, at `c`. */
  predicate StatusSite(s: string, p: nat, c: nat) {
    StartsWord(s, p) && IsLetter(s[p]) && p + 2 < c < |s| && s[p + 1] == '(' && s[c] == ')' &&
    forall k :: p + 2 <= k < c ==> s[k] != ')'
  }

  /** A status call that no earlier one swallows: "s(a(b))" holds the calls
      `s` and `a`, both closing at the first ')', and only `s` counts. */
  predicate FirstAtClose(s: string, p: nat, c: nat) {
    StatusSite(s, p, c) && forall p': nat :: p' < p ==> !StatusSite(s, p', c)
  }

  /** The pattern matches at `p` exactly at a status site, and reads its name. */
  lemma StatusCallAtSite(s: string, p: nat)
    ensures StatusCallAt(s, p).Some? ==>
      StatusSite(s, p, StatusCallAt(s, p).value.end - 1) &&
      StatusCallAt(s, p).value.value == s[p + 2..StatusCallAt(s, p).value.end - 1]
    ensures forall c: nat :: StatusSite(s, p, c) ==> StatusCallAt(s, p) == Some(Hit(s[p + 2..c], c + 1))
  {
    forall c: nat | StatusSite(s, p, c) ensures StatusCallAt(s, p) == Some(Hit(s[p + 2..c], c + 1)) {
      RunEndAt(s, p + 2, c, NotCloseParen);
    }
  }

  /** A status site starting inside another one closes at the same parenthesis. */
  lemma SiteCloseShared(s: string, p: nat, c: nat, p2: nat, c2: nat)
    requires StatusSite(s, p, c) && StatusSite(s, p2, c2) && p <= p2 <= c
    ensures c2 == c
  {
    assert s[c] == ')' && s[c2] == ')';
  }

  /** Some status call at `q` or later that no earlier one swallows is
      named `x`. */
  ghost predicate StatusFrom(s: string, q: nat, x: string) {
    exists p: nat, c: nat :: q <= p && FirstAtClose(s, p, c) && s[p + 2..c] == x
  }

  /** From a position that no earlier site straddles, the scan finds exactly
      the names of the sites no earlier site swallows. */
  lemma {:induction false} StatusScan(s: string, q: nat)
    requires forall p: nat, c: nat :: p < q && StatusSite(s, p, c) ==> c < q
    ensures forall x :: x in FindAll(s, q, StatusCallAt) <==> StatusFrom(s, q, x)
    decreases |s| + 1 - q
  {
    StatusCallAtSite(s, q);
    if q > |s| {
      assert FindAll(s, q, StatusCallAt) == [];
    } else if StatusCallAt(s, q).None? {
      StatusScan(s, q + 1);
      assert FindAll(s, q, StatusCallAt) == FindAll(s, q + 1, StatusCallAt);
      StatusMiss(s, q, q + 1);
    } else {
      var h := StatusCallAt(s, q).value;
      var c := h.end - 1;
      assert StatusSite(s, q, c) && h.value == s[q + 2..c];
      HitNoStraddle(s, q, c);
      StatusScan(s, h.end);
      FindAllHit(s, q, StatusCallAt);
      StatusHit(s, q, c, h.end);
    }
  }

  /** No site before the end of a hit straddles that end. */
  lemma HitNoStraddle(s: string, q: nat, c: nat)
    requires StatusSite(s, q, c)
    requires forall p: nat, c2: nat :: p < q && StatusSite(s, p, c2) ==> c2 < q
    ensures forall p: nat, c2: nat :: p < c + 1 && StatusSite(s, p, c2) ==> c2 < c + 1
  {
    forall p: nat, c2: nat | p < c + 1 && StatusSite(s, p, c2) ensures c2 < c + 1 {
      if q <= p {
        SiteCloseShared(s, q, c, p, c2);
      }
    }
  }

  /** A position where no status call starts adds no name to the scan. */
  lemma StatusMiss(s: string, q: nat, r: nat)
    requires r == q + 1 && FindAll(s, q, StatusCallAt) == FindAll(s, r, StatusCallAt)
    requires forall c: nat :: !StatusSite(s, q, c)
    requires forall x :: x in FindAll(s, r, StatusCallAt) <==> StatusFrom(s, r, x)
    ensures forall x :: x in FindAll(s, q, StatusCallAt) <==> StatusFrom(s, q, x)
  {
    forall x | StatusFrom(s, q, x) ensures StatusFrom(s, r, x) {
      var p: nat, c: nat :| q <= p && FirstAtClose(s, p, c) && s[p + 2..c] == x;
      assert p != q;
    }
  }

  /** A status call at `q` closing at `c` adds its name, and the scan
      resumes after the parenthesis. */
  lemma StatusHit(s: string, q: nat, c: nat, e: nat)
    requires StatusSite(s, q, c) && e == c + 1
    requires forall p: nat, c2: nat :: p < q && StatusSite(s, p, c2) ==> c2 < q
    requires FindAll(s, q, StatusCallAt) == [s[q + 2..c]] + FindAll(s, e, StatusCallAt)
    requires forall x :: x in FindAll(s, e, StatusCallAt) <==> StatusFrom(s, e, x)
    ensures forall x :: x in FindAll(s, q, StatusCallAt) <==> StatusFrom(s, q, x)
  {
    assert FirstAtClose(s, q, c);
    forall x | x in FindAll(s, q, StatusCallAt) ensures StatusFrom(s, q, x) {
      HitFound(s, q, c, e, x);
    }
    forall x | StatusFrom(s, q, x) ensures x in FindAll(s, q, StatusCallAt) {
      HitMissesNone(s, q, c, e, x);
    }
  }

  /** Each name the scan finds from a hit is a status call's. */
  lemma HitFound(s: string, q: nat, c: nat, e: nat, x: string)
    requires FirstAtClose(s, q, c) && e == c + 1
    requires x in [s[q + 2..c]] + FindAll(s, e, StatusCallAt)
    requires x in FindAll(s, e, StatusCallAt) ==> StatusFrom(s, e, x)
    ensures StatusFrom(s, q, x)
  {
    if x != s[q + 2..c] {
      var p: nat, c2: nat :| e <= p && FirstAtClose(s, p, c2) && s[p + 2..c2] == x;
    }
  }

  /** Each status call from a hit on is found: the hit's own, or one after it. */
  lemma HitMissesNone(s: string, q: nat, c: nat, e: nat, x: string)
    requires StatusSite(s, q, c) && e == c + 1 && StatusFrom(s, q, x)
    requires StatusFrom(s, e, x) ==> x in FindAll(s, e, StatusCallAt)
    ensures x in [s[q + 2..c]] + FindAll(s, e, StatusCallAt)
  {
    var p: nat, c2: nat :| q <= p && FirstAtClose(s, p, c2) && s[p + 2..c2] == x;
    var rest := FindAll(s, e, StatusCallAt);
    if p <= c {
      SiteCloseShared(s, q, c, p, c2);
      assert p == q by {
        assert !(q < p && StatusSite(s, q, c2));
      }
      assert x == ([s[q + 2..c]] + rest)[0];
    } else {
      assert StatusFrom(s, e, x);
      var i :| 0 <= i < |rest| && rest[i] == x;
      assert x == ([s[q + 2..c]] + rest)[i + 1];
    }
  }

  /** The upstream names are the names of the status calls of the condition
      that no earlier call swallows. */
  lemma UpstreamJobNamesSpec(job: Job)
    ensures forall x :: x in UpstreamJobNames(job) <==>
      job.condition.Some? && exists p: nat, c: nat :: FirstAtClose(job.condition.value, p, c) && job.condition.value[p + 2..c] == x
  {
    if job.condition.Some? {
      StatusScan(job.condition.value, 0);
    }
  }

  /* ---------------- the typed fields mirror `raw` ---------------- */

  /** What a raw key contributes to an optional field. */
  function RawField(raw: map<string, string>, key: string): Option<string> {
    if key in raw then Some(raw[key]) else None
  }

  lemma RawFieldUpdate(raw: map<string, string>, key: string, value: string, field: string)
    ensures RawField(raw[key := value], field) == if key == field then Some(value) else RawField(raw, field)
  {
  }

  /** The typed fields are a view of `raw`: each is the value under its
      key, or the default when the key never appeared; all keys are lower
      case. */
  predicate Consistent(job: Job) {
    job.jobType == RawField(job.raw, "job_type").GetOr(DefaultJobType)
    && job.boxName == RawField(job.raw, "box_name")
    && job.command == RawField(job.raw, "command")
    && job.condition == RawField(job.raw, "condition")
    && LowerKeys(job.raw)
  }

  predicate LowerKeys(raw: map<string, string>) {
    forall k :: k in raw ==> Lower(k) == k
  }

  lemma NewJobConsistent(name: string)
    ensures Consistent(NewJob(name)) && NewJob(name).name == name
  {
  }

  /** A line without a colon continues the command (on a new line) and the
      condition (after a space), whichever of the two the job already has. */
  function Continue(job: Job, line: string): (r: Job)
    ensures Consistent(job) ==> Consistent(r)
    ensures r.name == job.name
    ensures r.raw.Keys == job.raw.Keys
    ensures forall k :: k in job.raw && k != "command" && k != "condition" ==> r.raw[k] == job.raw[k]
    ensures "command" in job.raw ==> r.command == Some(job.raw["command"] + "\n" + line)
    ensures "condition" in job.raw ==> r.condition == Some(job.raw["condition"] + " " + line)
  {
    var withCommand :=
      if "command" in job.raw then
        var c := job.raw["command"] + "\n" + line;
        job.(raw := job.raw["command" := c], command := Some(c))
      else job;
    if "condition" in withCommand.raw then
      var c := withCommand.raw["condition"] + " " + line;
      withCommand.(raw := withCommand.raw["condition" := c], condition := Some(c))
    else withCommand
  }

  lemma LowerIdempotent(s: string)
    ensures Lower(Lower(s)) == Lower(s)
  {
  }

  /** `key: value` on a line: both sides stripped, the key lower-cased. */
  function Attribute(line: string): (r: (string, string))
    requires ':' in line
    ensures Lower(r.0) == r.0
  {
    var parts := SplitFirst(line, ':').value;
    LowerIdempotent(Strip(parts.0));
    (Lower(Strip(parts.0)), Strip(parts.1))
  }

  /** Record an attribute line: stored under its key in `raw` and, for the
      four known keys, in the typed field. */
  function SetAttribute(job: Job, line: string): (r: Job)
    requires ':' in line
    ensures Consistent(job) ==> Consistent(r)
    ensures r.name == job.name
    ensures r.raw == job.raw[Attribute(line).0 := Attribute(line).1]
  {
    var (key, value) := Attribute(line);
    var stored := job.(raw := job.raw[key := value]);
    assert LowerKeys(job.raw) ==> LowerKeys(stored.raw);
    RawFieldUpdate(job.raw, key, value, "job_type");
    RawFieldUpdate(job.raw, key, value, "box_name");
    RawFieldUpdate(job.raw, key, value, "command");
    RawFieldUpdate(job.raw, key, value, "condition");
    if key == "job_type" then stored.(jobType := value)
    else if key == "box_name" then stored.(boxName := Some(value))
    else if key == "command" then stored.(command := Some(value))
    else if key == "condition" then stored.(condition := Some(value))
    else stored
  }

  /* ---------------- the export ---------------- */

  /** Jobs are stored under their own names and every box lists only jobs
      of the export. */
  ghost predicate WellFormed(e: Export) {
    Valid(e.jobs) && Valid(e.boxes)
    && (forall k :: Get(e.jobs, k).Some? ==> Get(e.jobs, k).value.name == k)
    && (forall b, n :: Get(e.boxes, b).Some? && n in Get(e.boxes, b).value ==> Get(e.jobs, n).Some?)
  }

  /** Store the finished job under its name; a truthy box name creates the
      box on demand and adds the job to it. */
  function Flush(e: Export, current: Option<Job>): (r: Export)
    ensures current.None? ==> r == e
    ensures current.Some? ==> forall k :: Get(r.jobs, k) == if k == current.value.name then current else Get(e.jobs, k)
    ensures current.Some? && Truthy(current.value.boxName) ==>
      forall b :: GetOr(r.boxes, b, {}) == GetOr(e.boxes, b, {}) + (if b == current.value.boxName.value then {current.value.name} else {})
    ensures current.None? || !Truthy(current.value.boxName) ==> r.boxes == e.boxes
    ensures WellFormed(e) ==> WellFormed(r)
  {
    match current
    case None => e
    case Some(job) =>
      var jobs := Put(e.jobs, job.name, job);
      assert Valid(e.jobs) ==> Valid(jobs) by {
        if Valid(e.jobs) { PutValid(e.jobs, job.name, job); }
      }
      assert forall k :: Get(jobs, k) == if k == job.name then current else Get(e.jobs, k) by {
        forall k ensures Get(jobs, k) == if k == job.name then current else Get(e.jobs, k) {
          PutGet(e.jobs, job.name, job, k);
        }
      }
      if Truthy(job.boxName) then
        var box := job.boxName.value;
        var boxes := Put(e.boxes, box, GetOr(e.boxes, box, {}) + {job.name});
        assert Valid(e.boxes) ==> Valid(boxes) by {
          if Valid(e.boxes) { PutValid(e.boxes, box, GetOr(e.boxes, box, {}) + {job.name}); }
        }
        assert forall b :: Get(boxes, b) == if b == box then Some(GetOr(e.boxes, box, {}) + {job.name}) else Get(e.boxes, b) by {
          forall b ensures Get(boxes, b) == if b == box then Some(GetOr(e.boxes, box, {}) + {job.name}) else Get(e.boxes, b) {
            PutGet(e.boxes, box, GetOr(e.boxes, box, {}) + {job.name}, b);
          }
        }
        Export(jobs, boxes)
      else
        Export(jobs, e.boxes)
  }

  /** The parser's state between lines: the export so far and the job whose
      attributes are being read. */
  datatype Parser = Parser(built: Export, current: Option<Job>)

  /** A line the parser passes over: blank, or a comment. */
  predicate IsSkipped(line: string) {
    line == "" || StartsWith(line, "/*") || StartsWith(line, "//")
  }

  predicate IsInsertJob(line: string) {
    StartsWith(Lower(line), "insert_job:")
  }

  /** Everything after the first colon, stripped: the job name keeps any
      further text of the line. */
  function InsertJobName(line: string): string
    requires IsInsertJob(line)
  {
    assert LowerChar(line[10]) == ':';
    Strip(SplitFirst(line, ':').value.1)
  }

  /** One line of the text. */
  function Step(p: Parser, rawLine: string): (r: Parser)
  {
    var line := Strip(rawLine);
    if IsSkipped(line) then p
    else if IsInsertJob(line) then Parser(Flush(p.built, p.current), Some(NewJob(InsertJobName(line))))
    else if p.current.None? then p
    else if ':' !in line then p.(current := Some(Continue(p.current.value, line)))
    else p.(current := Some(SetAttribute(p.current.value, line)))
  }

  function Run(p: Parser, lines: seq<string>): Parser
    decreases |lines|
  {
    if lines == [] then p else Step(Run(p, lines[..|lines| - 1]), lines[|lines| - 1])
  }

  /** Parsing keeps the export well formed and the open job consistent. */
  ghost predicate Sound(p: Parser) {
    WellFormed(p.built) && (p.current.Some? ==> Consistent(p.current.value))
  }

  lemma StepSound(p: Parser, line: string)
    requires Sound(p)
    ensures Sound(Step(p, line))
  {
    if !IsSkipped(Strip(line)) && IsInsertJob(Strip(line)) {
      NewJobConsistent(InsertJobName(Strip(line)));
    }
  }

  lemma {:induction false} RunSound(p: Parser, lines: seq<string>)
    requires Sound(p)
    ensures Sound(Run(p, lines))
    decreases |lines|
  {
    if lines != [] {
      RunSound(p, lines[..|lines| - 1]);
      StepSound(Run(p, lines[..|lines| - 1]), lines[|lines| - 1]);
    }
  }

  function ParseJilText(text: string): (r: Export) {
    var p := Run(Parser(EmptyExport, None), SplitLines(text));
    Flush(p.built, p.current)
  }

  /** Every parsed export stores jobs under their names and boxes only jobs
      it holds. */
  lemma ParseJilTextWellFormed(text: string)
    ensures WellFormed(ParseJilText(text))
  {
    RunSound(Parser(EmptyExport, None), SplitLines(text));
  }

  /** Until the next `insert_job:` line the export does not change and the
      open job keeps its name; with no job open, lines are ignored. */
  lemma {:induction false} RunWithinJob(p: Parser, lines: seq<string>)
    requires forall i :: 0 <= i < |lines| ==> !IsInsertJob(Strip(lines[i]))
    ensures Run(p, lines).built == p.built
    ensures Run(p, lines).current.Some? == p.current.Some?
    ensures p.current.Some? ==> Run(p, lines).current.value.name == p.current.value.name
    ensures p.current.None? ==> Run(p, lines) == p
    decreases |lines|
  {
    if lines != [] {
      RunWithinJob(p, lines[..|lines| - 1]);
    }
  }

  /** A text without an `insert_job:` line yields an empty export. */
  lemma NoJobsWithoutInsert(text: string)
    requires forall i :: 0 <= i < |SplitLines(text)| ==> !IsInsertJob(Strip(SplitLines(text)[i]))
    ensures ParseJilText(text) == EmptyExport
  {
    RunWithinJob(Parser(EmptyExport, None), SplitLines(text));
  }

  /** An `insert_job:` line stores the previous job and opens a new one. */
  lemma InsertJobFlushes(p: Parser, line: string)
    requires IsInsertJob(Strip(line))
    ensures Step(p, line).built == Flush(p.built, p.current)
    ensures Step(p, line).current == Some(NewJob(InsertJobName(Strip(line))))
  {
    var l := Strip(line);
    assert l != "" && Lower(l)[0] == 'i';
    assert l[0] != '/';
    assert !StartsWith(l, "/*") && !StartsWith(l, "//");
  }

  /** The name runs to the end of the line: `insert_job: A job_type: c`
      names a job `A job_type: c`. */
  lemma InsertJobNameKeepsRest(rest: string)
    requires rest != [] && !IsSpace(rest[0]) && !IsSpace(rest[|rest| - 1])
    ensures IsInsertJob("insert_job: " + rest)
    ensures InsertJobName("insert_job: " + rest) == rest
  {
    InsertJobSplit(rest);
    StripUnspaced(rest);
    assert TrimStartBy(" " + rest, IsSpace) == TrimStartBy(rest, IsSpace) by {
      assert (" " + rest)[1..] == rest;
    }
  }

  lemma InsertJobSplit(rest: string)
    ensures IsInsertJob("insert_job: " + rest)
    ensures SplitFirst("insert_job: " + rest, ':') == Some(("insert_job", " " + rest))
  {
    var line := "insert_job: " + rest;
    assert Lower(line)[..11] == "insert_job:";
    assert line == "insert_job" + [':'] + (" " + rest);
    SplitFirstOf("insert_job", " " + rest, ':');
  }

  /* ---------------- several files ---------------- */

  /** `combined.jobs.update(jobs)`. */
  function UpdateJobs(acc: OMap<string, Job>, jobs: OMap<string, Job>): OMap<string, Job>
    decreases |jobs|
  {
    if jobs == [] then acc
    else
      var last := jobs[|jobs| - 1];
      Put(UpdateJobs(acc, jobs[..|jobs| - 1]), last.0, last.1)
  }

  /** Each box of the file: `combined.boxes.setdefault(b, …).jobs |= names`. */
  function UnionBoxes(acc: OMap<string, set<string>>, boxes: OMap<string, set<string>>): OMap<string, set<string>>
    decreases |boxes|
  {
    if boxes == [] then acc
    else
      var last := boxes[|boxes| - 1];
      var merged := UnionBoxes(acc, boxes[..|boxes| - 1]);
      Put(merged, last.0, GetOr(merged, last.0, {}) + last.1)
  }

  /** The prefix of a dictionary is a dictionary without its last key. */
  lemma ValidPrefix<V>(m: OMap<string, V>)
    requires Valid(m) && m != []
    ensures Valid(m[..|m| - 1])
    ensures m[|m| - 1].0 !in Keys(m[..|m| - 1])
    ensures m == m[..|m| - 1] + [(m[|m| - 1].0, m[|m| - 1].1)]
  {
    var pre := m[..|m| - 1];
    assert forall i :: 0 <= i < |pre| ==> Keys(pre)[i] == Keys(m)[i];
  }

  /** After an update the file's jobs win and the others stay. */
  lemma {:induction false} UpdateJobsGet(acc: OMap<string, Job>, jobs: OMap<string, Job>, k: string)
    requires Valid(jobs)
    ensures Get(UpdateJobs(acc, jobs), k) == if k in Keys(jobs) then Get(jobs, k) else Get(acc, k)
    decreases |jobs|
  {
    if jobs != [] {
      var pre := jobs[..|jobs| - 1];
      var last := jobs[|jobs| - 1];
      ValidPrefix(jobs);
      UpdateJobsGet(acc, pre, k);
      PutGet(UpdateJobs(acc, pre), last.0, last.1, k);
      GetSnoc(pre, last.0, last.1, k);
      KeysAppend(pre, [(last.0, last.1)]);
    }
  }

  lemma {:induction false} UpdateJobsValid(acc: OMap<string, Job>, jobs: OMap<string, Job>)
    requires Valid(acc)
    ensures Valid(UpdateJobs(acc, jobs))
    decreases |jobs|
  {
    if jobs != [] {
      var last := jobs[|jobs| - 1];
      UpdateJobsValid(acc, jobs[..|jobs| - 1]);
      PutValid(UpdateJobs(acc, jobs[..|jobs| - 1]), last.0, last.1);
    }
  }

  /** After the merge a box holds the jobs it held in either export. */
  lemma {:induction false} UnionBoxesGet(acc: OMap<string, set<string>>, boxes: OMap<string, set<string>>, b: string)
    requires Valid(boxes)
    ensures GetOr(UnionBoxes(acc, boxes), b, {}) == GetOr(acc, b, {}) + GetOr(boxes, b, {})
    ensures Get(UnionBoxes(acc, boxes), b).Some? <==> Get(acc, b).Some? || Get(boxes, b).Some?
    decreases |boxes|
  {
    if boxes != [] {
      var pre := boxes[..|boxes| - 1];
      var last := boxes[|boxes| - 1];
      var merged := UnionBoxes(acc, pre);
      ValidPrefix(boxes);
      UnionBoxesGet(acc, pre, b);
      PutGet(merged, last.0, GetOr(merged, last.0, {}) + last.1, b);
      GetSnoc(pre, last.0, last.1, b);
      if b == last.0 {
        UnionBoxesGet(acc, pre, last.0);
      }
    }
  }

  lemma {:induction false} UnionBoxesValid(acc: OMap<string, set<string>>, boxes: OMap<string, set<string>>)
    requires Valid(acc)
    ensures Valid(UnionBoxes(acc, boxes))
    decreases |boxes|
  {
    if boxes != [] {
      var last := boxes[|boxes| - 1];
      var merged := UnionBoxes(acc, boxes[..|boxes| - 1]);
      UnionBoxesValid(acc, boxes[..|boxes| - 1]);
      PutValid(merged, last.0, GetOr(merged, last.0, {}) + last.1);
    }
  }

  function Merge(combined: Export, e: Export): Export {
    Export(UpdateJobs(combined.jobs, e.jobs), UnionBoxes(combined.boxes, e.boxes))
  }

  /** Merging two well-formed exports gives a well-formed one in which the
      later export's jobs win and box memberships are unions. */
  lemma MergeWellFormed(combined: Export, e: Export)
    requires WellFormed(combined) && WellFormed(e)
    ensures WellFormed(Merge(combined, e))
    ensures forall k :: Get(Merge(combined, e).jobs, k) == if k in Keys(e.jobs) then Get(e.jobs, k) else Get(combined.jobs, k)
    ensures forall b :: GetOr(Merge(combined, e).boxes, b, {}) == GetOr(combined.boxes, b, {}) + GetOr(e.boxes, b, {})
  {
    var m := Merge(combined, e);
    UpdateJobsValid(combined.jobs, e.jobs);
    UnionBoxesValid(combined.boxes, e.boxes);
    forall k ensures Get(m.jobs, k) == if k in Keys(e.jobs) then Get(e.jobs, k) else Get(combined.jobs, k) {
      UpdateJobsGet(combined.jobs, e.jobs, k);
    }
    forall b ensures GetOr(m.boxes, b, {}) == GetOr(combined.boxes, b, {}) + GetOr(e.boxes, b, {}) {
      UnionBoxesGet(combined.boxes, e.boxes, b);
    }
    forall b, n | Get(m.boxes, b).Some? && n in Get(m.boxes, b).value ensures Get(m.jobs, n).Some? {
      UnionBoxesGet(combined.boxes, e.boxes, b);
      assert n in GetOr(m.boxes, b, {});
      if n in GetOr(e.boxes, b, {}) {
        assert Get(e.jobs, n).Some?;
      } else {
        assert Get(combined.jobs, n).Some?;
      }
    }
  }

  /** The texts of the files in order, merged. */
  function ParseJilFiles(texts: seq<string>): Export
    decreases |texts|
  {
    if texts == [] then EmptyExport
    else Merge(ParseJilFiles(texts[..|texts| - 1]), ParseJilText(texts[|texts| - 1]))
  }

  lemma {:induction false} ParseJilFilesWellFormed(texts: seq<string>)
    ensures WellFormed(ParseJilFiles(texts))
    decreases |texts|
  {
    if texts != [] {
      ParseJilFilesWellFormed(texts[..|texts| - 1]);
      ParseJilTextWellFormed(texts[|texts| - 1]);
      MergeWellFormed(ParseJilFiles(texts[..|texts| - 1]), ParseJilText(texts[|texts| - 1]));
    }
  }
}
