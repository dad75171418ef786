/** A worked walk: root patterns that ignore one top-level directory `b`,
    over a project whose top listing holds a directory `s` with a file `m`,
    the directory `b` with a file `o`, and a file `r`, in that order (for
    instance `src/main.go`, `build/out.bin` and `README.md`). The matcher
    stands for the pattern `b/` as the engine answers the queries this walk
    asks: it accepts the directory query of the top-level `b` only, so `o`
    is excluded by pruning alone. */
module Scenarios {
  import opened Paths
  import opened FileTree
  import opened Ignorers
  import opened Selector

  function Project(s: Name, b: Name, r: Name, m: Name, o: Name): seq<Node>
  {
    [Dir(s, [File(m, [])]), Dir(b, [File(o, [])]), File(r, [])]
  }

  function PruneSelector(rootPath: string, b: Name): FileSelector
  {
    FileSelector(rootPath, GitIgnorer([("/", PathspecIgnorer(q => q == DirQuery([], b)))]))
  }

  /** At the top the relative path is `.`, so the query for `build` reads
      `/./build/`. */
  lemma BuildQuery()
    ensures DirQuery([], "build") == "/./build/"
  {
    JoinRelPath([], "build");
  }

  /** A directory query names its directory: two entries of one listing
      with different names ask different queries. */
  lemma {:induction false} DirQueryInjective(dirs: seq<Name>, e1: Name, e2: Name)
    requires DirQuery(dirs, e1) == DirQuery(dirs, e2)
    ensures e1 == e2
  {
    JoinRelPath(dirs, e1);
    JoinRelPath(dirs, e2);
    var n := |RelPath(dirs)| + 2;
    var q1, q2 := DirQuery(dirs, e1), DirQuery(dirs, e2);
    assert q1[n..|q1| - 1] == e1;
    assert q2[n..|q2| - 1] == e2;
  }

  /** The index's answers to the queries the walk asks. */
  lemma PrunedIgnored(rootPath: string, b: Name)
    ensures !DirKept(PruneSelector(rootPath, b).ignorer, [], b)
  {
    assert Hit(PruneSelector(rootPath, b).ignorer.ignorerData, 0, DirQuery([], b));
  }

  lemma OtherDirKept(rootPath: string, b: Name, s: Name)
    requires s != b
    ensures DirKept(PruneSelector(rootPath, b).ignorer, [], s)
  {
    if DirQuery([], s) == DirQuery([], b) {
      DirQueryInjective([], s, b);
    }
  }

  lemma FileKept(rootPath: string, b: Name, dirs: seq<Name>, e: Name)
    ensures !PruneSelector(rootPath, b).ignorer.IsIgnored(FileQuery(dirs, e))
  {
    assert FileQuery(dirs, e) != DirQuery([], b);
  }

  /** The `dirs` comprehension at the top keeps `s` and drops `b`. */
  lemma TopLevelDirs(rootPath: string, s: Name, b: Name, r: Name, m: Name, o: Name)
    requires s != b
    ensures PruneSelector(rootPath, b).SurvivingDirs([], Project(s, b, r, m, o)) == [Dir(s, [File(m, [])])]
  {
    var sel := PruneSelector(rootPath, b);
    var listing := Project(s, b, r, m, o);
    PrunedIgnored(rootPath, b);
    OtherDirKept(rootPath, b, s);
    assert listing[1..][1..][1..] == [];
    assert sel.SurvivingDirs([], listing[1..][1..]) == [];
    assert sel.SurvivingDirs([], listing[1..]) == [];
  }

  /** A listing of one kept file: its path, and no subdirectory. */
  lemma SingleFile(sel: FileSelector, dirs: seq<Name>, f: Name)
    requires !sel.ignorer.IsIgnored(FileQuery(dirs, f))
    ensures sel.SurvivingFiles(dirs, [File(f, [])]) == [AbsPath(sel.rootPath, Located(dirs, f))]
    ensures sel.SurvivingDirs(dirs, [File(f, [])]) == []
  {
    var listing := [File(f, [])];
    assert listing[1..] == [];
    assert sel.SurvivingFiles(dirs, listing[1..]) == [];
    assert sel.SurvivingDirs(dirs, listing[1..]) == [];
  }

  /** A directory none of whose subdirectories survives returns its own
      surviving files only. */
  lemma LeafTraverse(sel: FileSelector, dirs: seq<Name>, listing: seq<Node>)
    requires sel.SurvivingDirs(dirs, listing) == []
    ensures sel.Traverse(dirs, listing) == sel.SurvivingFiles(dirs, listing)
  {
    assert sel.SubdirFiles(dirs, []) == [];
  }

  /** The `files` comprehension at the top keeps `r` only. */
  lemma TopLevelFiles(rootPath: string, s: Name, b: Name, r: Name, m: Name, o: Name)
    ensures PruneSelector(rootPath, b).SurvivingFiles([], Project(s, b, r, m, o)) == [AbsPath(rootPath, Located([], r))]
  {
    var sel := PruneSelector(rootPath, b);
    var listing := Project(s, b, r, m, o);
    var last := listing[1..][1..];
    assert last == [File(r, [])];
    FileKept(rootPath, b, [], r);
    SingleFile(sel, [], r);
    assert sel.SurvivingFiles([], listing[1..]) == [] + sel.SurvivingFiles([], last);
    assert sel.SurvivingFiles([], listing) == [] + sel.SurvivingFiles([], listing[1..]);
  }

  /** The traversal of `s` returns its one file. */
  lemma SubdirTraverse(rootPath: string, b: Name, s: Name, m: Name)
    ensures PruneSelector(rootPath, b).Traverse([s], [File(m, [])]) == [AbsPath(rootPath, Located([s], m))]
  {
    var sel := PruneSelector(rootPath, b);
    FileKept(rootPath, b, [s], m);
    SingleFile(sel, [s], m);
    LeafTraverse(sel, [s], [File(m, [])]);
  }

  lemma SubdirWalk(rootPath: string, b: Name, s: Name, m: Name)
    ensures PruneSelector(rootPath, b).SubdirFiles([], [Dir(s, [File(m, [])])]) == [AbsPath(rootPath, Located([s], m))]
  {
    var sel := PruneSelector(rootPath, b);
    var top: seq<Name> := [];
    var subdirs := [Dir(s, [File(m, [])])];
    SubdirTraverse(rootPath, b, s, m);
    assert top + [s] == [s];
    assert sel.SubdirFiles(top, []) == [];
    assert subdirs[0] == Dir(s, [File(m, [])]) && subdirs[1..] == [];
  }

  /** The files of the root come before those of its subdirectories, and
      the ignored directory `b` is not entered: `r`, then `s/m`, and
      nothing from `b`. */
  lemma BuildDirectoryPruned(rootPath: string, s: Name, b: Name, r: Name, m: Name, o: Name)
    requires s != b
    ensures PruneSelector(rootPath, b).GetFiles(Project(s, b, r, m, o))
         == [AbsPath(rootPath, Located([], r)), AbsPath(rootPath, Located([s], m))]
  {
    var sel := PruneSelector(rootPath, b);
    var listing := Project(s, b, r, m, o);
    TopLevelFiles(rootPath, s, b, r, m, o);
    TopLevelDirs(rootPath, s, b, r, m, o);
    SubdirWalk(rootPath, b, s, m);
    assert sel.Traverse([], listing)
        == sel.SurvivingFiles([], listing) + sel.SubdirFiles([], sel.SurvivingDirs([], listing));
  }

  /** A file one level below a root without a trailing separator. */
  lemma NestedPath(rootPath: string, d: Name, f: Name)
    requires rootPath != "" && rootPath[|rootPath| - 1] != '/'
    ensures AbsPath(rootPath, Located([d], f)) == rootPath + "/" + d + "/" + f
  {
    assert [d][..0] == [] && [d][0] == d;
    var dir := rootPath + "/" + d;
    assert DirPath(rootPath, [d]) == Join(rootPath, d);
    JoinAfter(rootPath, d);
    assert dir[|dir| - 1] == d[|d| - 1] && d[|d| - 1] in d;
    JoinAfter(dir, f);
  }
}
