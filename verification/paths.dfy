/** The shared path expansion: explicit files first, then the files under
    each scan directory with each extension, keeping the first path that
    resolves to a given file. */
module Paths {
  import opened Basics
  import Text

  /** What the expansion asks of the file system: `Path.resolve()`,
      `Path.exists()`, and the paths `Path(dir).rglob(pattern)` yields. */
  datatype FileSystem = FileSystem(
    resolve: string -> string,
    present: string -> bool,
    rglob: (string, string) -> seq<string>)

  /* ---------------- the order of `sorted` on paths ---------------- */

  /** Paths compare part by part; on the text that is the character order
      with the separator `/` below every other character: a part that ends
      sorts before any longer part it begins. */
  function Rank(c: char): int {
    if c == '/' then -1 else c as int
  }

  predicate PathLess(a: string, b: string)
    decreases |a|
  {
    if a == [] then b != []
    else if b == [] then false
    else if a[0] != b[0] then Rank(a[0]) < Rank(b[0])
    else PathLess(a[1..], b[1..])
  }

  lemma {:induction false} PathLessIrreflexive(a: string)
    ensures !PathLess(a, a)
    decreases |a|
  {
    if a != [] {
      PathLessIrreflexive(a[1..]);
    }
  }

  lemma {:induction false} PathLessTotal(a: string, b: string)
    requires a != b
    ensures PathLess(a, b) || PathLess(b, a)
    decreases |a|
  {
    if a != [] && b != [] && a[0] == b[0] {
      assert a == [a[0]] + a[1..] && b == [b[0]] + b[1..];
      PathLessTotal(a[1..], b[1..]);
    }
  }

  lemma {:induction false} PathLessAsymmetric(a: string, b: string)
    requires PathLess(a, b)
    ensures !PathLess(b, a)
    decreases |a|
  {
    if a != [] && b != [] && a[0] == b[0] {
      PathLessAsymmetric(a[1..], b[1..]);
    }
  }

  lemma {:induction false} PathLessTransitive(a: string, b: string, c: string)
    requires PathLess(a, b) && PathLess(b, c)
    ensures PathLess(a, c)
    decreases |a|
  {
    if a != [] && b != [] && c != [] && a[0] == b[0] && b[0] == c[0] {
      PathLessTransitive(a[1..], b[1..], c[1..]);
    }
  }

  /** A directory sorts before the files under it. */
  lemma {:induction false} DirectoryFirst(dir: string, rest: string)
    ensures PathLess(dir, dir + "/" + rest)
    decreases |dir|
  {
    if dir != [] {
      assert (dir + "/" + rest)[1..] == dir[1..] + "/" + rest;
      DirectoryFirst(dir[1..], rest);
    }
  }

  /** `a/b` sorts before `a-c`, although `-` is below `/` as a character. */
  lemma PartsBeforeLongerParts()
    ensures PathLess("a/b", "a-c") && !PathLess("a-c", "a/b")
  {
    assert Rank('/') < Rank('-');
    assert ("a/b")[1..] == "/b" && ("a-c")[1..] == "-c";
  }

  predicate SortedPaths(s: seq<string>) {
    forall i, j :: 0 <= i < j < |s| ==> PathLess(s[i], s[j])
  }

  function InsertPath(x: string, s: seq<string>): (r: seq<string>)
    requires SortedPaths(s) && x !in s
    ensures SortedPaths(r)
    ensures |r| == |s| + 1
    ensures forall y :: y in r <==> y == x || y in s
    decreases |s|
  {
    if s == [] then [x]
    else if PathLess(x, s[0]) then
      forall j | 0 < j < |s| ensures PathLess(x, s[j]) {
        PathLessTransitive(x, s[0], s[j]);
      }
      [x] + s
    else
      PathLessTotal(x, s[0]);
      var rest := InsertPath(x, s[1..]);
      assert s == [s[0]] + s[1..];
      forall j | 0 <= j < |rest| ensures PathLess(s[0], rest[j]) {
        if rest[j] != x {
          assert rest[j] in s[1..];
        }
      }
      [s[0]] + rest
  }

  /** `sorted(hits)`: each path once, in ascending path order. */
  function SortPaths(items: seq<string>): (r: seq<string>)
    ensures SortedPaths(r)
    ensures forall x :: x in r <==> x in items
    decreases |items|
  {
    if items == [] then []
    else
      var rest := SortPaths(items[1..]);
      if items[0] in rest then rest
      else InsertPath(items[0], rest)
  }

  /** A strictly ascending list is determined by its elements: the order in
      which the directory walk yields its hits does not matter. */
  lemma {:induction false} SortedPathsUnique(a: seq<string>, b: seq<string>)
    requires SortedPaths(a) && SortedPaths(b)
    requires forall x :: x in a <==> x in b
    ensures a == b
    decreases |a|
  {
    if a != [] && b != [] {
      assert a[0] in a && b[0] in b;
      if a[0] != b[0] {
        PathLessTotal(a[0], b[0]);
        PathLessIrreflexive(a[0]);
        PathLessIrreflexive(b[0]);
        if PathLess(a[0], b[0]) {
          PathLessAsymmetric(a[0], b[0]);
        }
        assert false;
      }
      forall x ensures x in a[1..] <==> x in b[1..] {
        if x in a[1..] {
          var i :| 1 <= i < |a| && a[i] == x;
          assert x != a[0] by { PathLessIrreflexive(a[0]); }
          assert x in b;
          var k :| 0 <= k < |b| && b[k] == x;
          assert b[1..][k - 1] == x;
        }
        if x in b[1..] {
          var i :| 1 <= i < |b| && b[i] == x;
          assert x != b[0] by { PathLessIrreflexive(b[0]); }
          assert x in a;
          var k :| 0 <= k < |a| && a[k] == x;
          assert a[1..][k - 1] == x;
        }
      }
      SortedPathsUnique(a[1..], b[1..]);
      assert a == [a[0]] + a[1..] && b == [b[0]] + b[1..];
    } else if a != [] {
      Text.HeadIn(a);
      assert false;
    } else if b != [] {
      Text.HeadIn(b);
      assert false;
    }
  }

  /* ---------------- the candidates, in order ---------------- */

  /** The sorted hits of one directory for each extension in turn; nothing
      for a directory that does not exist. */
  function DirHits(dir: string, extensions: seq<string>, fs: FileSystem): seq<string>
    decreases |extensions|
  {
    if !fs.present(dir) || extensions == [] then []
    else
      var ext := extensions[|extensions| - 1];
      DirHits(dir, extensions[..|extensions| - 1], fs) + SortPaths(fs.rglob(dir, "*" + ext))
  }

  /** The hits of every scan directory, directory by directory. */
  function ScanHits(dirs: seq<string>, extensions: seq<string>, fs: FileSystem): seq<string>
    decreases |dirs|
  {
    if dirs == [] then []
    else ScanHits(dirs[..|dirs| - 1], extensions, fs) + DirHits(dirs[|dirs| - 1], extensions, fs)
  }

  /** Every path `_add` is offered, in order. */
  function Candidates(explicit: seq<string>, dirs: seq<string>, extensions: seq<string>, fs: FileSystem): seq<string> {
    explicit + ScanHits(dirs, extensions, fs)
  }

  /* ---------------- `_add` and the expansion ---------------- */

  /** The list built so far and the resolved forms already taken. */
  datatype Expansion = Expansion(result: seq<string>, seen: set<string>)

  /** `_add`: keep the path as given unless a path resolving to the same
      file was kept before. */
  function Add(x: Expansion, p: string, resolve: string -> string): Expansion {
    var r := resolve(p);
    if r in x.seen then x else Expansion(x.result + [p], x.seen + {r})
  }

  function AddEach(x: Expansion, ps: seq<string>, resolve: string -> string): Expansion
    decreases |ps|
  {
    if ps == [] then x
    else Add(AddEach(x, ps[..|ps| - 1], resolve), ps[|ps| - 1], resolve)
  }

  /** `expand_paths`. */
  function ExpandPaths(explicit: seq<string>, dirs: seq<string>, extensions: seq<string>, fs: FileSystem): seq<string> {
    AddEach(Expansion([], {}), Candidates(explicit, dirs, extensions, fs), fs.resolve).result
  }

  /* ---------------- a reference definition ---------------- */

  /** Some element before position `i` resolves like `s[i]`. */
  predicate SeenBefore(s: seq<string>, i: nat, resolve: string -> string)
    requires i < |s|
  {
    exists k :: 0 <= k < i && resolve(s[k]) == resolve(s[i])
  }

  /** The elements no earlier element resolves like, in order. */
  function FirstOccurrences(s: seq<string>, resolve: string -> string): seq<string>
    decreases |s|
  {
    if s == [] then []
    else FirstOccurrences(s[..|s| - 1], resolve) + (if SeenBefore(s, |s| - 1, resolve) then [] else [s[|s| - 1]])
  }

  function Resolved(s: seq<string>, resolve: string -> string): set<string> {
    set k | 0 <= k < |s| :: resolve(s[k])
  }

  lemma ResolvedSnoc(s: seq<string>, p: string, resolve: string -> string)
    ensures Resolved(s + [p], resolve) == Resolved(s, resolve) + {resolve(p)}
  {
    var t := s + [p];
    forall r | r in Resolved(t, resolve) ensures r in Resolved(s, resolve) + {resolve(p)} {
      var k :| 0 <= k < |t| && resolve(t[k]) == r;
      if k < |s| {
        assert t[k] == s[k];
      }
    }
    forall r | r in Resolved(s, resolve) ensures r in Resolved(t, resolve) {
      var k :| 0 <= k < |s| && resolve(s[k]) == r;
      assert t[k] == s[k];
    }
    assert resolve(t[|s|]) == resolve(p);
  }

  /** The `_add` loop keeps exactly the first occurrences, and `seen`
      holds the resolved form of every path offered. */
  lemma {:induction false} AddEachIsFirstOccurrences(ps: seq<string>, resolve: string -> string)
    ensures AddEach(Expansion([], {}), ps, resolve).result == FirstOccurrences(ps, resolve)
    ensures AddEach(Expansion([], {}), ps, resolve).seen == Resolved(ps, resolve)
    decreases |ps|
  {
    if ps != [] {
      var front := ps[..|ps| - 1];
      var p := ps[|ps| - 1];
      AddEachIsFirstOccurrences(front, resolve);
      assert ps == front + [p];
      ResolvedSnoc(front, p, resolve);
      assert resolve(p) in Resolved(front, resolve) <==> SeenBefore(ps, |ps| - 1, resolve) by {
        if SeenBefore(ps, |ps| - 1, resolve) {
          var k :| 0 <= k < |ps| - 1 && resolve(ps[k]) == resolve(ps[|ps| - 1]);
          assert front[k] == ps[k];
        }
        if resolve(p) in Resolved(front, resolve) {
          var k :| 0 <= k < |front| && resolve(front[k]) == resolve(p);
          assert ps[k] == front[k];
        }
      }
    }
  }

  /** The expansion is the first occurrence of each resolved file among the
      candidates, each kept as given. */
  lemma ExpandIsFirstOccurrences(explicit: seq<string>, dirs: seq<string>, extensions: seq<string>, fs: FileSystem)
    ensures ExpandPaths(explicit, dirs, extensions, fs) == FirstOccurrences(Candidates(explicit, dirs, extensions, fs), fs.resolve)
  {
    AddEachIsFirstOccurrences(Candidates(explicit, dirs, extensions, fs), fs.resolve);
  }

  lemma SeenBeforeSnoc(s: seq<string>, i: nat, resolve: string -> string)
    requires 0 <= i < |s| - 1
    ensures SeenBefore(s[..|s| - 1], i, resolve) == SeenBefore(s, i, resolve)
  {
    assert forall k :: 0 <= k <= i ==> s[..|s| - 1][k] == s[k];
  }

  /** Every candidate's file is represented among the kept paths. */
  lemma {:induction false} FirstOccurrencesResolved(s: seq<string>, resolve: string -> string)
    ensures Resolved(FirstOccurrences(s, resolve), resolve) == Resolved(s, resolve)
    decreases |s|
  {
    if s != [] {
      var front := s[..|s| - 1];
      var p := s[|s| - 1];
      var f := FirstOccurrences(front, resolve);
      FirstOccurrencesResolved(front, resolve);
      assert s == front + [p];
      ResolvedSnoc(front, p, resolve);
      if !SeenBefore(s, |s| - 1, resolve) {
        ResolvedSnoc(f, p, resolve);
      } else {
        var k :| 0 <= k < |s| - 1 && resolve(s[k]) == resolve(s[|s| - 1]);
        assert resolve(front[k]) == resolve(p);
        assert resolve(p) in Resolved(front, resolve);
        assert FirstOccurrences(s, resolve) == f;
      }
    }
  }

  /** No two kept paths resolve to the same file. */
  lemma {:induction false} FirstOccurrencesDistinct(s: seq<string>, resolve: string -> string)
    ensures forall i, j :: 0 <= i < j < |FirstOccurrences(s, resolve)| ==>
      resolve(FirstOccurrences(s, resolve)[i]) != resolve(FirstOccurrences(s, resolve)[j])
    decreases |s|
  {
    if s != [] {
      var front := s[..|s| - 1];
      var p := s[|s| - 1];
      var f := FirstOccurrences(front, resolve);
      FirstOccurrencesDistinct(front, resolve);
      FirstOccurrencesResolved(front, resolve);
      if !SeenBefore(s, |s| - 1, resolve) {
        forall i | 0 <= i < |f| ensures resolve(f[i]) != resolve(p) {
          assert resolve(f[i]) in Resolved(f, resolve);
          var k :| 0 <= k < |front| && resolve(front[k]) == resolve(f[i]);
          assert s[k] == front[k];
        }
        var r := f + [p];
        assert FirstOccurrences(s, resolve) == r;
        forall i, j | 0 <= i < j < |r| ensures resolve(r[i]) != resolve(r[j]) {
          if j < |f| {
            assert r[i] == f[i] && r[j] == f[j];
          } else {
            assert r[i] == f[i] && r[j] == p;
          }
        }
      }
    }
  }

  /** Every kept path is, as given, the first candidate resolving to its
      file. */
  lemma {:induction false} FirstOccurrencesFirst(s: seq<string>, resolve: string -> string)
    ensures forall y :: y in FirstOccurrences(s, resolve) ==> exists i :: 0 <= i < |s| && s[i] == y && !SeenBefore(s, i, resolve)
    decreases |s|
  {
    if s != [] {
      var front := s[..|s| - 1];
      var p := s[|s| - 1];
      var f := FirstOccurrences(front, resolve);
      FirstOccurrencesFirst(front, resolve);
      forall y | y in FirstOccurrences(s, resolve) ensures exists i :: 0 <= i < |s| && s[i] == y && !SeenBefore(s, i, resolve) {
        if y in f {
          var i :| 0 <= i < |front| && front[i] == y && !SeenBefore(front, i, resolve);
          SeenBeforeSnoc(s, i, resolve);
          assert s[i] == y;
        } else {
          assert y == p && !SeenBefore(s, |s| - 1, resolve);
        }
      }
    }
  }

  /** Offering more paths only appends to the list. */
  lemma {:induction false} FirstOccurrencesPrefix(a: seq<string>, b: seq<string>, resolve: string -> string)
    ensures FirstOccurrences(a, resolve) <= FirstOccurrences(a + b, resolve)
    decreases |b|
  {
    if b == [] {
      assert a + b == a;
    } else {
      assert (a + b)[..|a + b| - 1] == a + b[..|b| - 1];
      FirstOccurrencesPrefix(a, b[..|b| - 1], resolve);
    }
  }

  /** Paths that resolve to different files are all kept, in order. */
  lemma {:induction false} FirstOccurrencesAllNew(s: seq<string>, resolve: string -> string)
    requires forall i, j :: 0 <= i < j < |s| ==> resolve(s[i]) != resolve(s[j])
    ensures FirstOccurrences(s, resolve) == s
    decreases |s|
  {
    if s != [] {
      FirstOccurrencesAllNew(s[..|s| - 1], resolve);
      assert !SeenBefore(s, |s| - 1, resolve);
    }
  }

  /* ---------------- the promised properties ---------------- */

  /** No two results resolve to the same file, and each is the first
      candidate resolving to its file, returned as given. */
  lemma ExpandDeduplicates(explicit: seq<string>, dirs: seq<string>, extensions: seq<string>, fs: FileSystem)
    ensures var r := ExpandPaths(explicit, dirs, extensions, fs);
      forall i, j :: 0 <= i < j < |r| ==> fs.resolve(r[i]) != fs.resolve(r[j])
    ensures var r := ExpandPaths(explicit, dirs, extensions, fs);
      var c := Candidates(explicit, dirs, extensions, fs);
      forall y :: y in r ==> exists i :: 0 <= i < |c| && c[i] == y && !SeenBefore(c, i, fs.resolve)
  {
    ExpandIsFirstOccurrences(explicit, dirs, extensions, fs);
    FirstOccurrencesDistinct(Candidates(explicit, dirs, extensions, fs), fs.resolve);
    FirstOccurrencesFirst(Candidates(explicit, dirs, extensions, fs), fs.resolve);
  }

  /** Every explicit path, and every hit, is represented by a result that
      resolves to the same file. */
  lemma ExpandCovers(explicit: seq<string>, dirs: seq<string>, extensions: seq<string>, fs: FileSystem, p: string)
    requires p in Candidates(explicit, dirs, extensions, fs)
    ensures exists y :: y in ExpandPaths(explicit, dirs, extensions, fs) && fs.resolve(y) == fs.resolve(p)
  {
    var c := Candidates(explicit, dirs, extensions, fs);
    var r := ExpandPaths(explicit, dirs, extensions, fs);
    ExpandIsFirstOccurrences(explicit, dirs, extensions, fs);
    FirstOccurrencesResolved(c, fs.resolve);
    var i :| 0 <= i < |c| && c[i] == p;
    assert fs.resolve(p) in Resolved(c, fs.resolve);
    assert fs.resolve(p) in Resolved(r, fs.resolve);
    var k :| 0 <= k < |r| && fs.resolve(r[k]) == fs.resolve(p);
    assert r[k] in r;
  }

  /** The explicit paths come first: what they expand to alone begins the
      result, and when they resolve to different files they are the result's
      first entries, as given. */
  lemma ExplicitFirst(explicit: seq<string>, dirs: seq<string>, extensions: seq<string>, fs: FileSystem)
    ensures ExpandPaths(explicit, [], extensions, fs) <= ExpandPaths(explicit, dirs, extensions, fs)
    ensures (forall i, j :: 0 <= i < j < |explicit| ==> fs.resolve(explicit[i]) != fs.resolve(explicit[j])) ==>
      explicit <= ExpandPaths(explicit, dirs, extensions, fs)
  {
    ExpandIsFirstOccurrences(explicit, [], extensions, fs);
    ExpandIsFirstOccurrences(explicit, dirs, extensions, fs);
    assert Candidates(explicit, [], extensions, fs) == explicit;
    FirstOccurrencesPrefix(explicit, ScanHits(dirs, extensions, fs), fs.resolve);
    if forall i, j :: 0 <= i < j < |explicit| ==> fs.resolve(explicit[i]) != fs.resolve(explicit[j]) {
      FirstOccurrencesAllNew(explicit, fs.resolve);
    }
  }

  lemma {:induction false} ScanHitsAppend(a: seq<string>, b: seq<string>, extensions: seq<string>, fs: FileSystem)
    ensures ScanHits(a + b, extensions, fs) == ScanHits(a, extensions, fs) + ScanHits(b, extensions, fs)
    decreases |b|
  {
    if b == [] {
      assert a + b == a;
    } else {
      assert (a + b)[..|a + b| - 1] == a + b[..|b| - 1];
      ScanHitsAppend(a, b[..|b| - 1], extensions, fs);
    }
  }

  /** A scan directory that does not exist changes nothing, wherever it
      stands among the others. */
  lemma MissingDirectoryIgnored(explicit: seq<string>, a: seq<string>, d: string, b: seq<string>, extensions: seq<string>, fs: FileSystem)
    requires !fs.present(d)
    ensures ExpandPaths(explicit, a + [d] + b, extensions, fs) == ExpandPaths(explicit, a + b, extensions, fs)
  {
    ScanHitsAppend(a + [d], b, extensions, fs);
    ScanHitsAppend(a, [d], extensions, fs);
    ScanHitsAppend(a, b, extensions, fs);
    assert [d][..0] == [];
    assert ScanHits([d], extensions, fs) == [];
    assert ScanHits(a + [d], extensions, fs) == ScanHits(a, extensions, fs);
    assert ScanHits(a + [d] + b, extensions, fs) == ScanHits(a + b, extensions, fs);
  }

  /** Directories are scanned in order: a further directory only appends. */
  lemma ScanOrder(explicit: seq<string>, dirs: seq<string>, d: string, extensions: seq<string>, fs: FileSystem)
    ensures ExpandPaths(explicit, dirs, extensions, fs) <= ExpandPaths(explicit, dirs + [d], extensions, fs)
  {
    var c := Candidates(explicit, dirs, extensions, fs);
    ExpandIsFirstOccurrences(explicit, dirs, extensions, fs);
    ExpandIsFirstOccurrences(explicit, dirs + [d], extensions, fs);
    assert (dirs + [d])[..|dirs|] == dirs;
    assert Candidates(explicit, dirs + [d], extensions, fs) == c + DirHits(d, extensions, fs);
    FirstOccurrencesPrefix(c, DirHits(d, extensions, fs), fs.resolve);
  }

  /** Within a directory, each extension's hits follow in sorted order. */
  lemma ExtensionOrder(d: string, extensions: seq<string>, ext: string, fs: FileSystem)
    requires fs.present(d)
    ensures DirHits(d, extensions + [ext], fs) == DirHits(d, extensions, fs) + SortPaths(fs.rglob(d, "*" + ext))
    ensures SortedPaths(SortPaths(fs.rglob(d, "*" + ext)))
  {
    assert (extensions + [ext])[..|extensions|] == extensions;
  }

  /** The sorted hits depend only on which paths the walk finds. */
  lemma HitsOrderIrrelevant(hits: seq<string>, hits': seq<string>)
    requires forall x :: x in hits <==> x in hits'
    ensures SortPaths(hits) == SortPaths(hits')
  {
    SortedPathsUnique(SortPaths(hits), SortPaths(hits'));
  }
}
