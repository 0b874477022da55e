/** The three POSIX path helpers the hook relies on when it locates a schema:
    `isabs`, `dirname` and the two-argument `join`, with the semantics of
    Python's `posixpath` module (the separator is always '/'). */
module PosixPath {

  const Sep: char := '/'

  /** `posixpath.isabs`: a path is absolute when it starts with the separator. */
  predicate IsAbs(s: string) {
    |s| > 0 && s[0] == Sep
  }

  predicate EndsWithSep(s: string) {
    |s| > 0 && s[|s| - 1] == Sep
  }

  predicate AllSep(s: string) {
    forall i :: 0 <= i < |s| ==> s[i] == Sep
  }

  predicate NoSep(s: string) {
    forall i :: 0 <= i < |s| ==> s[i] != Sep
  }

  /** `str.rfind('/')`: the index of the last separator, or -1 when there is none. */
  function LastSep(p: string): (i: int)
    ensures -1 <= i < |p|
    ensures i >= 0 ==> p[i] == Sep
    ensures forall j :: i < j < |p| ==> p[j] != Sep
  {
    if p == [] then -1
    else if p[|p| - 1] == Sep then |p| - 1
    else LastSep(p[..|p| - 1])
  }

  /** `str.rstrip('/')`: drop every trailing separator. */
  function StripTrailingSep(s: string): (r: string)
    ensures r <= s
    ensures !EndsWithSep(r)
    ensures forall i :: |r| <= i < |s| ==> s[i] == Sep
  {
    if EndsWithSep(s) then StripTrailingSep(s[..|s| - 1]) else s
  }

  /** `posixpath.dirname`: everything up to and including the last separator,
      with trailing separators removed unless that head is separators only. */
  function Dirname(p: string): (d: string)
    ensures d <= p
    ensures d == [] <==> NoSep(p)
    ensures !AllSep(d) ==> !EndsWithSep(d)
    // What follows the directory is separators, then a separator-free base name.
    ensures forall j, k :: |d| <= j < k < |p| && p[j] != Sep ==> p[k] != Sep
    // The last separator run and the base name are dropped; a head of
    // separators only is kept whole.
    ensures !NoSep(p) ==> |d| <= LastSep(p) + 1 && (AllSep(d) ==> |d| == LastSep(p) + 1)
  {
    var head := p[..LastSep(p) + 1];
    if head != [] && !AllSep(head) then StripTrailingSep(head) else head
  }

  /** `posixpath.join(a, b)` for two components. */
  function Join(a: string, b: string): (r: string)
    ensures IsAbs(b) ==> r == b
    ensures !IsAbs(b) ==> a <= r && |r| <= |a| + 1 + |b|
    ensures !IsAbs(b) && a != [] ==> |r| > |b| && r[|r| - |b| - 1] == Sep
    ensures |b| <= |r| && r[|r| - |b|..] == b
    // A separator is inserted only when `a` is non-empty and lacks one.
    ensures !IsAbs(b) ==> |r| == |a| + |b| + (if a == [] || EndsWithSep(a) then 0 else 1)
  {
    if IsAbs(b) then b
    else if a == [] || EndsWithSep(a) then a + b
    else a + [Sep] + b
  }

  /** The directory of `dir + "/" + name`, for a separator-free name and a
      directory that does not end in a separator, is that directory
      (or "/" for the root). */
  lemma {:induction false} DirnameOfChild(dir: string, name: string)
    requires !EndsWithSep(dir) && NoSep(name)
    ensures Dirname(dir + [Sep] + name) == if dir == [] then [Sep] else dir
  {
    var p := dir + [Sep] + name;
    var i := LastSep(p);
    assert p[|dir|] == Sep;
    if i < |dir| {
      assert false;
    } else if i > |dir| {
      assert false;
    }
    var head := p[..i + 1];
    assert head == dir + [Sep];
    if dir == [] {
      assert AllSep(head);
    } else {
      assert head[|dir| - 1] == dir[|dir| - 1];
      assert !AllSep(head);
      assert EndsWithSep(head);
      assert head[..|head| - 1] == dir;
    }
  }

  /** Joining a single base name onto a directory and taking the directory
      again gives back that directory, when the directory is in the form
      `dirname` returns: empty, separators only, or not ending in one. */
  lemma DirnameOfJoin(a: string, b: string)
    requires b != [] && NoSep(b)
    requires a == [] || AllSep(a) || !EndsWithSep(a)
    ensures Dirname(Join(a, b)) == a
  {
    assert !IsAbs(b);
    if a == [] {
      assert Join(a, b) == b;
    } else if AllSep(a) {
      var p := a + b;
      assert Join(a, b) == p;
      assert p[|a| - 1] == Sep;
      assert LastSep(p) == |a| - 1 by {
        var i := LastSep(p);
        if i < |a| - 1 {
          assert false;
        } else if i > |a| - 1 {
          assert false;
        }
      }
      assert p[..|a|] == a;
    } else {
      assert Join(a, b) == a + [Sep] + b;
      DirnameOfChild(a, b);
    }
  }

  /** `dirname` as CPython computes it, on a few shapes: the base name goes,
      a trailing separator keeps the last component, and a root head stays. */
  lemma DirnameExamples()
    ensures Dirname("a/b") == "a"
    ensures Dirname("a/b/") == "a/b"
    ensures Dirname("/a") == "/"
    ensures Dirname("a") == ""
  {
    assert LastSep("a/b") == 1 by { assert LastSep("a/") == 1; }
    assert "a/b"[..2] == "a/";
    assert StripTrailingSep("a/") == "a" by { assert "a/"[..1] == "a"; }
    assert LastSep("a/b/") == 3;
    assert "a/b/"[..4] == "a/b/";
    assert StripTrailingSep("a/b/") == "a/b" by { assert "a/b/"[..3] == "a/b"; }
    assert LastSep("/a") == 0 by { assert "/a"[..1] == "/"; }
    assert "/a"[..1] == "/";
    assert AllSep("/");
    assert LastSep("a") == -1 by { assert "a"[..0] == ""; }
  }
}
