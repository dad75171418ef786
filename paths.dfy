/** Path strings the selector builds: `str.startswith`, `os.path.join` and
    `os.path.relpath`, with POSIX separators. A directory below the project
    root is represented by the sequence of entry names that leads to it. */
module Paths {

  /** A name a directory listing can return: never empty, never the
      separator, never `.` or `..`. */
  predicate ValidName(s: string)
  {
    s != "" && '/' !in s && s != "." && s != ".."
  }

  type Name = s: string | ValidName(s) witness "a"

  /** `s.startswith(prefix)` */
  predicate StartsWith(s: string, prefix: string)
  {
    prefix <= s
  }

  /** `os.path.join(a, b)` for a relative component `b`: a separator is
      inserted unless `a` is empty or already ends with one. */
  function Join(a: string, b: Name): (r: string)
    ensures StartsWith(r, a)
    ensures |b| <= |r| && r[|r| - |b|..] == b
    ensures a != "" ==> |r| > |b| && r[|r| - |b| - 1] == '/'
    ensures |r| <= |a| + 1 + |b|
  {
    if a == "" || a[|a| - 1] == '/' then a + b else a + "/" + b
  }

  /** `os.path.relpath(d, root)` for the directory `d` reached from the root
      through `dirs`: `"."` for the root itself, otherwise the names joined
      by single separators. */
  function RelPath(dirs: seq<Name>): (r: string)
    ensures r != ""
    ensures r[|r| - 1] != '/'
    ensures r == "." <==> dirs == []
    ensures dirs != [] ==> StartsWith(r, dirs[0])
  {
    if dirs == [] then "."
    else if |dirs| == 1 then dirs[0]
    else
      var init := RelPath(dirs[..|dirs| - 1]);
      assert dirs[..|dirs| - 1][0] == dirs[0];
      init + "/" + dirs[|dirs| - 1]
  }

  /** The absolute path of the directory reached from `root` through
      `dirs`, built by repeated `os.path.join` as the walk descends. */
  function DirPath(root: string, dirs: seq<Name>): (r: string)
    ensures StartsWith(r, root)
  {
    if dirs == [] then root
    else Join(DirPath(root, dirs[..|dirs| - 1]), dirs[|dirs| - 1])
  }

  /** Joining onto a path without a trailing separator inserts one. */
  lemma JoinAfter(a: string, b: Name)
    requires a != "" && a[|a| - 1] != '/'
    ensures Join(a, b) == a + "/" + b
  {
  }

  /** A relative path never ends with a separator, so joining a name onto it
      inserts exactly one. */
  lemma JoinRelPath(dirs: seq<Name>, e: Name)
    ensures Join(RelPath(dirs), e) == RelPath(dirs) + "/" + e
  {
  }

  /** The relative path of a directory, followed by a separator, is a prefix
      of the relative path of every directory strictly below it. */
  lemma {:induction false} RelPathBelow(dirs: seq<Name>, below: seq<Name>)
    requires dirs != [] && dirs <= below && |dirs| < |below|
    ensures StartsWith(RelPath(below), RelPath(dirs) + "/")
    decreases |below|
  {
    var init := below[..|below| - 1];
    assert RelPath(below) == RelPath(init) + "/" + below[|below| - 1];
    if |init| == |dirs| {
      assert init == dirs;
    } else {
      assert dirs <= init by {
        assert below[..|dirs|] == dirs;
        assert init[..|dirs|] == below[..|dirs|];
      }
      RelPathBelow(dirs, init);
    }
  }
}
