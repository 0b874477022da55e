/** The path collector of the hook: every input path is resolved, the run is
    abandoned at the first one that is not an existing regular file, and the
    surviving paths are filtered through the `--exclude` prefixes. */
module PathCollector {

  /** What the hook asks of the operating system: `os.path.realpath`,
      `os.path.exists` and `os.path.isfile`. */
  datatype FileSystem = FileSystem(
    realPath: string -> string,
    pathExists: string -> bool,
    isFile: string -> bool)

  /** `os.path.realpath(path or '.')`: an empty argument stands for the
      current directory. */
  function Resolve(fs: FileSystem, path: string): string {
    fs.realPath(if path == [] then "." else path)
  }

  predicate Usable(fs: FileSystem, resolved: string) {
    fs.pathExists(resolved) && fs.isFile(resolved)
  }

  datatype Collected =
    | Collected(files: seq<string>)
    | Rejected(path: string)

  /** Resolve every input in order; stop at the first one that does not
      name an existing regular file. */
  function Collect(fs: FileSystem, paths: seq<string>): (r: Collected)
    ensures r.Collected? <==> forall i :: 0 <= i < |paths| ==> Usable(fs, Resolve(fs, paths[i]))
    ensures r.Collected? ==>
      && |r.files| == |paths|
      && forall i :: 0 <= i < |paths| ==> r.files[i] == Resolve(fs, paths[i])
    ensures r.Rejected? ==>
      exists k :: 0 <= k < |paths|
        && r.path == Resolve(fs, paths[k])
        && !Usable(fs, r.path)
        && forall i :: 0 <= i < k ==> Usable(fs, Resolve(fs, paths[i]))
  {
    if paths == [] then Collected([])
    else
      var p := Resolve(fs, paths[0]);
      if !Usable(fs, p) then Rejected(p)
      else
        match Collect(fs, paths[1..])
        case Collected(rest) => Collected([p] + rest)
        case Rejected(q) => Rejected(q)
  }

  // ---------------------------------------------------------------------
  // Exclusion, as the hook computes it

  /** `str.startswith`: plain character prefix, with no notion of path segments. */
  predicate StartsWith(s: string, prefix: string) {
    |prefix| <= |s| && s[..|prefix|] == prefix
  }

  /** The inputs that start with `prefix`, in input order. */
  function Matching(paths: seq<string>, prefix: string): seq<string> {
    if paths == [] then []
    else (if StartsWith(paths[0], prefix) then [paths[0]] else []) + Matching(paths[1..], prefix)
  }

  /** The `path_to_exclude` list: the matches of every exclude entry, one
      entry after another. */
  function ExcludedPaths(paths: seq<string>, excludes: seq<string>): seq<string> {
    if excludes == [] then []
    else Matching(paths, excludes[0]) + ExcludedPaths(paths, excludes[1..])
  }

  /** The inputs that do not occur in `removed`, in input order. */
  function Without(paths: seq<string>, removed: seq<string>): seq<string> {
    if paths == [] then []
    else (if paths[0] in removed then [] else [paths[0]]) + Without(paths[1..], removed)
  }

  /** The filter step of the hook; an absent or empty exclude list leaves
      the paths alone. */
  function ApplyExclude(paths: seq<string>, excludes: seq<string>): (r: seq<string>)
    ensures excludes == [] ==> r == paths
    ensures IsSubsequence(r, paths)
    ensures forall x :: x in r <==> x in paths && !Excluded(x, excludes)
  {
    if excludes == [] then
      RetainedIsSubsequence(paths, excludes);
      RetainedWithNoExcludes(paths);
      paths
    else
      ExcludeAsSpecified(paths, excludes);
      RetainedIsSubsequence(paths, excludes);
      Without(paths, ExcludedPaths(paths, excludes))
  }

  // ---------------------------------------------------------------------
  // Exclusion, as a reference definition

  /** A path is excluded when some exclude entry is a string prefix of it. */
  predicate Excluded(x: string, excludes: seq<string>) {
    exists e :: e in excludes && StartsWith(x, e)
  }

  /** The paths that no exclude entry prefixes, in their original order. */
  function Retained(paths: seq<string>, excludes: seq<string>): seq<string> {
    if paths == [] then []
    else (if Excluded(paths[0], excludes) then [] else [paths[0]]) + Retained(paths[1..], excludes)
  }

  /** `xs` can be obtained from `ys` by deleting elements, without reordering. */
  ghost predicate IsSubsequence<T>(xs: seq<T>, ys: seq<T>)
    decreases |ys|
  {
    if xs == [] then true
    else if ys == [] then false
    else (xs[0] == ys[0] && IsSubsequence(xs[1..], ys[1..])) || IsSubsequence(xs, ys[1..])
  }

  /** Number of occurrences of `x` in `s`. */
  function Count<T(==)>(s: seq<T>, x: T): nat {
    if s == [] then 0 else (if s[0] == x then 1 else 0) + Count(s[1..], x)
  }

  lemma {:induction false} MatchingMembers(paths: seq<string>, prefix: string, x: string)
    ensures x in Matching(paths, prefix) <==> x in paths && StartsWith(x, prefix)
  {
    if paths != [] {
      MatchingMembers(paths[1..], prefix, x);
      assert paths == [paths[0]] + paths[1..];
    }
  }

  /** The `path_to_exclude` list holds exactly the inputs some entry prefixes. */
  lemma {:induction false} ExcludedPathsMembers(paths: seq<string>, excludes: seq<string>, x: string)
    ensures x in ExcludedPaths(paths, excludes) <==> x in paths && Excluded(x, excludes)
  {
    if excludes != [] {
      MatchingMembers(paths, excludes[0], x);
      ExcludedPathsMembers(paths, excludes[1..], x);
      if x in paths && Excluded(x, excludes) {
        var e :| e in excludes && StartsWith(x, e);
        if e != excludes[0] {
          assert e in excludes[1..];
        }
      }
      if x in ExcludedPaths(paths, excludes[1..]) {
        var e :| e in excludes[1..] && StartsWith(x, e);
        assert e in excludes;
      }
    }
  }

  /** Filtering by membership in a list that agrees with a predicate on
      every input is filtering by that predicate. */
  lemma {:induction false} WithoutAgreesWithRetained(paths: seq<string>, removed: seq<string>, excludes: seq<string>)
    requires forall x :: x in paths ==> (x in removed <==> Excluded(x, excludes))
    ensures Without(paths, removed) == Retained(paths, excludes)
  {
    if paths != [] {
      assert paths[0] in paths;
      forall x | x in paths[1..] ensures x in paths { }
      WithoutAgreesWithRetained(paths[1..], removed, excludes);
    }
  }

  /** The two-pass computation of the hook removes exactly the inputs some
      exclude entry prefixes, keeping the rest in order. */
  lemma ExcludeAsSpecified(paths: seq<string>, excludes: seq<string>)
    ensures Without(paths, ExcludedPaths(paths, excludes)) == Retained(paths, excludes)
  {
    forall x | x in paths
      ensures x in ExcludedPaths(paths, excludes) <==> Excluded(x, excludes)
    {
      ExcludedPathsMembers(paths, excludes, x);
    }
    WithoutAgreesWithRetained(paths, ExcludedPaths(paths, excludes), excludes);
  }

  lemma {:induction false} RetainedIsSubsequence(paths: seq<string>, excludes: seq<string>)
    ensures IsSubsequence(Retained(paths, excludes), paths)
    ensures forall x :: x in Retained(paths, excludes) <==> x in paths && !Excluded(x, excludes)
  {
    if paths != [] {
      RetainedIsSubsequence(paths[1..], excludes);
      var rest := Retained(paths[1..], excludes);
      assert paths == [paths[0]] + paths[1..];
      if !Excluded(paths[0], excludes) {
        assert ([paths[0]] + rest)[1..] == rest;
      } else {
        assert Retained(paths, excludes) == rest;
      }
    }
  }

  /** With no exclude entries nothing is removed. */
  lemma {:induction false} RetainedWithNoExcludes(paths: seq<string>)
    ensures Retained(paths, []) == paths
  {
    if paths != [] {
      RetainedWithNoExcludes(paths[1..]);
      assert !Excluded(paths[0], []);
      assert paths == [paths[0]] + paths[1..];
    }
  }

  /** Every kept path keeps all of its occurrences; every excluded one loses all. */
  lemma {:induction false} RetainedCounts(paths: seq<string>, excludes: seq<string>, x: string)
    ensures Count(Retained(paths, excludes), x) == if Excluded(x, excludes) then 0 else Count(paths, x)
  {
    if paths != [] {
      RetainedCounts(paths[1..], excludes, x);
      var head := if Excluded(paths[0], excludes) then [] else [paths[0]];
      CountConcat(head, Retained(paths[1..], excludes), x);
    }
  }

  lemma {:induction false} CountConcat<T>(a: seq<T>, b: seq<T>, x: T)
    ensures Count(a + b, x) == Count(a, x) + Count(b, x)
  {
    if a != [] {
      assert (a + b)[0] == a[0];
      assert (a + b)[1..] == a[1..] + b;
      CountConcat(a[1..], b, x);
    } else {
      assert a + b == b;
    }
  }

  /** Excluding `/a/b` also excludes `/a/bc`: the match is on characters,
      not on path segments. */
  lemma PrefixIsNotSegmentAware()
    ensures ApplyExclude(["/a/bc", "/a/c"], ["/a/b"]) == ["/a/c"]
  {
    var paths := ["/a/bc", "/a/c"];
    var excludes := ["/a/b"];
    assert StartsWith("/a/bc", "/a/b");
    assert Excluded("/a/bc", excludes);
    assert !StartsWith("/a/c", "/a/b") by {
      assert "/a/c"[..4] != "/a/b" by { assert "/a/c"[3] == 'c'; }
    }
    assert !Excluded("/a/c", excludes);
    ExcludeAsSpecified(paths, excludes);
    assert paths[1..] == ["/a/c"];
    assert paths[1..][1..] == [];
  }
}
