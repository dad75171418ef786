/** `FileSelector`: the pruning walk that lists the files of a project that
    its ignore index lets through. */
module Selector {
  import opened Paths
  import opened FileTree
  import opened Ignorers

  /** The query for directory `e` of the directory reached through `dirs`:
      `"/" + os.path.join(relpath, e) + "/"`. At the top the relative path is
      `"."`, so the query reads `"/./e/"`. */
  function DirQuery(dirs: seq<Name>, e: Name): (q: string)
    ensures NonRoot(q) && StartsWith(q, "/") && q[|q| - 1] == '/'
  {
    "/" + Join(RelPath(dirs), e) + "/"
  }

  /** The query for file `e` of the directory reached through `dirs`:
      `"/" + os.path.join(relpath, e)`, with no separator at the end. */
  function FileQuery(dirs: seq<Name>, e: Name): (q: string)
    ensures NonRoot(q) && StartsWith(q, "/") && q[|q| - 1] != '/'
  {
    assert e[|e| - 1] in e;
    "/" + Join(RelPath(dirs), e)
  }

  /** The absolute path the walk returns for a file of the tree. */
  function AbsPath(rootPath: string, f: Located): (p: string)
    ensures StartsWith(p, rootPath)
  {
    Join(DirPath(rootPath, f.dirs), f.name)
  }

  /** No directory on the way from the top to the directory reached through
      `dirs` is ignored. */
  predicate AncestorsKept(ignorer: GitIgnorer, dirs: seq<Name>)
  {
    forall j | 0 <= j < |dirs| :: DirKept(ignorer, dirs[..j], dirs[j])
  }

  /** The walk of the directory reached through `dirs` enters its
      subdirectory `d`. */
  predicate DirKept(ignorer: GitIgnorer, dirs: seq<Name>, d: Name)
  {
    !ignorer.IsIgnored(DirQuery(dirs, d))
  }

  /** A file the walk lists: neither it nor any directory above it is
      ignored. */
  predicate Survives(ignorer: GitIgnorer, f: Located)
  {
    AncestorsKept(ignorer, f.dirs) && !ignorer.IsIgnored(FileQuery(f.dirs, f.name))
  }

  /** The surviving files among `fs`, in their order. */
  function Kept(ignorer: GitIgnorer, fs: seq<Located>): (r: seq<Located>)
    ensures |r| <= |fs|
    ensures forall f :: f in r <==> f in fs && Survives(ignorer, f)
  {
    if fs == [] then []
    else (if Survives(ignorer, fs[0]) then [fs[0]] else []) + Kept(ignorer, fs[1..])
  }

  /** The absolute paths of `fs`, position by position. */
  function AbsPaths(rootPath: string, fs: seq<Located>): (r: seq<string>)
    ensures |r| == |fs|
    ensures forall i | 0 <= i < |fs| :: r[i] == AbsPath(rootPath, fs[i])
  {
    if fs == [] then [] else [AbsPath(rootPath, fs[0])] + AbsPaths(rootPath, fs[1..])
  }

  datatype FileSelector = FileSelector(rootPath: string, ignorer: GitIgnorer)
  {
    /** `FileSelector.create`: the index is built from the extra root
        patterns and the `.gitignore` files of the tree. */
    static method Create(compile: Compiler, rootPath: string, top: seq<Node>, pathspecs: seq<string>)
      returns (selector: FileSelector)
      ensures selector.rootPath == rootPath
      ensures BuiltFrom(selector.ignorer, compile, pathspecs, GitignoresOf(top))
    {
      var ignorer := FromGitRoot(compile, top, pathspecs);
      selector := FileSelector(rootPath, ignorer);
    }

    /** `get_files`: the walk from the root. Its result is every file of the
        tree that survives the index, in `os.walk` order: an ignored
        directory hides everything below it. */
    function GetFiles(top: seq<Node>): (files: seq<string>)
      ensures files == AbsPaths(rootPath, Kept(ignorer, AllFiles(top)))
    {
      TraverseIsPrunedWalk(this, [], top);
      Traverse([], top)
    }

    /** `traverse` of the directory reached through `dirs`, whose listing is
        `listing`: its surviving files, then the walks of its surviving
        subdirectories, all in listing order. */
    function Traverse(dirs: seq<Name>, listing: seq<Node>): seq<string>
      decreases Size(listing), 1
    {
      var files := SurvivingFiles(dirs, listing);
      var subdirs := SurvivingDirs(dirs, listing);
      SizeOfSurvivingDirs(dirs, listing);
      files + SubdirFiles(dirs, subdirs)
    }

    /** The `files` comprehension: absolute paths of the files of the listing
        whose file query is not ignored. */
    function SurvivingFiles(dirs: seq<Name>, listing: seq<Node>): seq<string>
    {
      if listing == [] then []
      else
        var e := listing[0];
        (if e.File? && !ignorer.IsIgnored(FileQuery(dirs, e.name))
         then [Join(DirPath(rootPath, dirs), e.name)] else [])
        + SurvivingFiles(dirs, listing[1..])
    }

    /** The `dirs` comprehension: the subdirectories of the listing whose
        directory query is not ignored. */
    function SurvivingDirs(dirs: seq<Name>, listing: seq<Node>): (r: seq<Node>)
      ensures forall i | 0 <= i < |r| :: r[i].Dir?
      ensures forall n :: n in r <==> n in listing && n.Dir? && DirKept(ignorer, dirs, n.name)
    {
      if listing == [] then []
      else
        var e := listing[0];
        (if e.Dir? && DirKept(ignorer, dirs, e.name) then [e] else [])
        + SurvivingDirs(dirs, listing[1..])
    }

    /** `[file for d in dirs for file in self.traverse(d)]` */
    function SubdirFiles(dirs: seq<Name>, subdirs: seq<Node>): seq<string>
      requires forall i | 0 <= i < |subdirs| :: subdirs[i].Dir?
      decreases Size(subdirs), 0
    {
      if subdirs == [] then []
      else
        var d := subdirs[0];
        assert Size(subdirs) == 1 + Size(d.children) + Size(subdirs[1..]);
        Traverse(dirs + [d.name], d.children) + SubdirFiles(dirs, subdirs[1..])
    }

    lemma {:induction false} SizeOfSurvivingDirs(dirs: seq<Name>, listing: seq<Node>)
      ensures Size(SurvivingDirs(dirs, listing)) <= Size(listing)
    {
      if listing != [] {
        var e, rest := listing[0], SurvivingDirs(dirs, listing[1..]);
        SizeOfSurvivingDirs(dirs, listing[1..]);
        if e.Dir? && DirKept(ignorer, dirs, e.name) {
          var r := [e] + rest;
          assert SurvivingDirs(dirs, listing) == r;
          assert r[0] == e && r[1..] == rest;
        } else {
          assert SurvivingDirs(dirs, listing) == [] + rest == rest;
        }
      }
    }
  }

  lemma {:induction false} KeptAppend(ignorer: GitIgnorer, a: seq<Located>, b: seq<Located>)
    ensures Kept(ignorer, a + b) == Kept(ignorer, a) + Kept(ignorer, b)
  {
    if a == [] {
      assert a + b == b;
    } else {
      assert (a + b)[0] == a[0];
      assert (a + b)[1..] == a[1..] + b;
      KeptAppend(ignorer, a[1..], b);
    }
  }

  lemma {:induction false} AbsPathsAppend(rootPath: string, a: seq<Located>, b: seq<Located>)
    ensures AbsPaths(rootPath, a + b) == AbsPaths(rootPath, a) + AbsPaths(rootPath, b)
  {
    if a == [] {
      assert a + b == b;
    } else {
      assert (a + b)[0] == a[0];
      assert (a + b)[1..] == a[1..] + b;
      AbsPathsAppend(rootPath, a[1..], b);
    }
  }

  /** Below a kept directory, the files of one listing that survive are the
      ones the `files` comprehension keeps. */
  lemma {:induction false} SurvivingFilesAreKept(selector: FileSelector, dirs: seq<Name>, listing: seq<Node>)
    requires AncestorsKept(selector.ignorer, dirs)
    ensures selector.SurvivingFiles(dirs, listing)
         == AbsPaths(selector.rootPath, Kept(selector.ignorer, FilesIn(dirs, listing)))
  {
    if listing != [] {
      var e := listing[0];
      var head: seq<Located> := if e.File? then [Located(dirs, e.name)] else [];
      assert FilesIn(dirs, listing) == head + FilesIn(dirs, listing[1..]);
      KeptAppend(selector.ignorer, head, FilesIn(dirs, listing[1..]));
      AbsPathsAppend(selector.rootPath, Kept(selector.ignorer, head), Kept(selector.ignorer, FilesIn(dirs, listing[1..])));
      SurvivingFilesAreKept(selector, dirs, listing[1..]);
      if e.File? {
        assert Kept(selector.ignorer, head) == if Survives(selector.ignorer, head[0]) then [head[0]] else [] by {
          assert head[1..] == [];
        }
      }
    }
  }

  /** Everything below an ignored directory is dropped, however its own
      queries fare. */
  lemma PrunedSubtree(ignorer: GitIgnorer, dirs: seq<Name>, d: Name, children: seq<Node>)
    requires ignorer.IsIgnored(DirQuery(dirs, d))
    ensures Kept(ignorer, WalkFiles(Walk(dirs + [d], children))) == []
  {
    var below := dirs + [d];
    var fs := WalkFiles(Walk(below, children));
    WalkFilesBelow(Walk(below, children), below);
    forall i | 0 <= i < |fs|
      ensures !Survives(ignorer, fs[i])
    {
      var ds := fs[i].dirs;
      assert below <= ds;
      assert ds[..|dirs|] == dirs && ds[|dirs|] == d by {
        assert ds[..|below|] == below;
      }
      assert !AncestorsKept(ignorer, ds);
    }
    NoneKept(ignorer, fs);
  }

  lemma {:induction false} NoneKept(ignorer: GitIgnorer, fs: seq<Located>)
    requires forall i | 0 <= i < |fs| :: !Survives(ignorer, fs[i])
    ensures Kept(ignorer, fs) == []
  {
    if fs != [] {
      NoneKept(ignorer, fs[1..]);
    }
  }

  /** Traversal theorem: below a kept directory, `traverse` returns exactly
      the surviving files of the unpruned walk of that directory, in walk
      order. */
  lemma {:induction false} TraverseIsPrunedWalk(selector: FileSelector, dirs: seq<Name>, listing: seq<Node>)
    requires AncestorsKept(selector.ignorer, dirs)
    ensures selector.Traverse(dirs, listing)
         == AbsPaths(selector.rootPath, Kept(selector.ignorer, WalkFiles(Walk(dirs, listing))))
    decreases Size(listing), 2
  {
    var ig, root := selector.ignorer, selector.rootPath;
    var here := FilesIn(dirs, listing);
    var steps := Walk(dirs, listing);
    assert steps == [WalkStep(dirs, listing)] + WalkBelow(dirs, listing);
    WalkFilesAppend([WalkStep(dirs, listing)], WalkBelow(dirs, listing));
    assert WalkFiles([WalkStep(dirs, listing)]) == here by {
      assert [WalkStep(dirs, listing)][1..] == [];
      assert here + [] == here;
    }
    KeptAppend(ig, here, WalkFiles(WalkBelow(dirs, listing)));
    AbsPathsAppend(root, Kept(ig, here), Kept(ig, WalkFiles(WalkBelow(dirs, listing))));
    SurvivingFilesAreKept(selector, dirs, listing);
    selector.SizeOfSurvivingDirs(dirs, listing);
    SubdirFilesArePrunedWalk(selector, dirs, listing);
  }

  /** The walks of the surviving subdirectories of a listing return the
      surviving files of the walks of all its subdirectories. */
  lemma {:induction false} SubdirFilesArePrunedWalk(selector: FileSelector, dirs: seq<Name>, entries: seq<Node>)
    requires AncestorsKept(selector.ignorer, dirs)
    ensures selector.SubdirFiles(dirs, selector.SurvivingDirs(dirs, entries))
         == AbsPaths(selector.rootPath, Kept(selector.ignorer, WalkFiles(WalkBelow(dirs, entries))))
    decreases Size(entries), 1
  {
    if entries != [] {
      var e := entries[0];
      var rest := entries[1..];
      assert Size(entries) == (if e.Dir? then 1 + Size(e.children) else 1) + Size(rest);
      SubdirFilesArePrunedWalk(selector, dirs, rest);
      if e.Dir? {
        SubdirStep(selector, dirs, entries);
      } else {
        assert selector.SurvivingDirs(dirs, entries) == selector.SurvivingDirs(dirs, rest);
        assert WalkBelow(dirs, entries) == WalkBelow(dirs, rest);
      }
    }
  }

  /** One subdirectory at the head of a listing: pruned, it contributes
      nothing; kept, it contributes its own traversal. */
  lemma {:induction false} SubdirStep(selector: FileSelector, dirs: seq<Name>, entries: seq<Node>)
    requires AncestorsKept(selector.ignorer, dirs)
    requires entries != [] && entries[0].Dir?
    requires selector.SubdirFiles(dirs, selector.SurvivingDirs(dirs, entries[1..]))
          == AbsPaths(selector.rootPath, Kept(selector.ignorer, WalkFiles(WalkBelow(dirs, entries[1..]))))
    ensures selector.SubdirFiles(dirs, selector.SurvivingDirs(dirs, entries))
         == AbsPaths(selector.rootPath, Kept(selector.ignorer, WalkFiles(WalkBelow(dirs, entries))))
    decreases Size(entries), 0
  {
    var ig, root := selector.ignorer, selector.rootPath;
    var e, rest := entries[0], entries[1..];
    assert Size(entries) == 1 + Size(e.children) + Size(rest);
    var sub := WalkFiles(Walk(dirs + [e.name], e.children));
    WalkBelowDir(dirs, entries);
    KeptPathsAppend(selector, sub, WalkFiles(WalkBelow(dirs, rest)));
    var restPaths := AbsPaths(root, Kept(ig, WalkFiles(WalkBelow(dirs, rest))));
    if DirKept(ig, dirs, e.name) {
      AncestorsKeptBelow(ig, dirs, e.name);
      TraverseIsPrunedWalk(selector, dirs + [e.name], e.children);
      KeptSubdirHead(selector, dirs, entries);
      assert selector.SubdirFiles(dirs, selector.SurvivingDirs(dirs, entries))
          == AbsPaths(root, Kept(ig, sub)) + restPaths;
    } else {
      PrunedSubtree(ig, dirs, e.name, e.children);
      assert AbsPaths(root, Kept(ig, sub)) == [];
      var survivors := selector.SurvivingDirs(dirs, rest);
      assert selector.SurvivingDirs(dirs, entries) == [] + survivors == survivors;
      assert selector.SubdirFiles(dirs, selector.SurvivingDirs(dirs, entries)) == restPaths;
    }
  }

  /** The walk below a listing headed by a directory: that directory's walk,
      then the walks of the rest. */
  lemma WalkBelowDir(dirs: seq<Name>, entries: seq<Node>)
    requires entries != [] && entries[0].Dir?
    ensures WalkFiles(WalkBelow(dirs, entries))
         == WalkFiles(Walk(dirs + [entries[0].name], entries[0].children)) + WalkFiles(WalkBelow(dirs, entries[1..]))
  {
    var sub := Walk(dirs + [entries[0].name], entries[0].children);
    assert WalkBelow(dirs, entries) == sub + WalkBelow(dirs, entries[1..]);
    WalkFilesAppend(sub, WalkBelow(dirs, entries[1..]));
  }

  lemma KeptPathsAppend(selector: FileSelector, a: seq<Located>, b: seq<Located>)
    ensures AbsPaths(selector.rootPath, Kept(selector.ignorer, a + b))
         == AbsPaths(selector.rootPath, Kept(selector.ignorer, a)) + AbsPaths(selector.rootPath, Kept(selector.ignorer, b))
  {
    KeptAppend(selector.ignorer, a, b);
    AbsPathsAppend(selector.rootPath, Kept(selector.ignorer, a), Kept(selector.ignorer, b));
  }

  /** A kept subdirectory at the head of a listing is walked first. */
  lemma KeptSubdirHead(selector: FileSelector, dirs: seq<Name>, entries: seq<Node>)
    requires entries != [] && entries[0].Dir? && DirKept(selector.ignorer, dirs, entries[0].name)
    ensures selector.SubdirFiles(dirs, selector.SurvivingDirs(dirs, entries))
         == selector.Traverse(dirs + [entries[0].name], entries[0].children)
            + selector.SubdirFiles(dirs, selector.SurvivingDirs(dirs, entries[1..]))
  {
    var e := entries[0];
    var survivors := selector.SurvivingDirs(dirs, entries);
    assert survivors == [e] + selector.SurvivingDirs(dirs, entries[1..]);
    assert survivors[0] == e && survivors[1..] == selector.SurvivingDirs(dirs, entries[1..]);
  }

  lemma AncestorsKeptBelow(ignorer: GitIgnorer, dirs: seq<Name>, d: Name)
    requires AncestorsKept(ignorer, dirs) && DirKept(ignorer, dirs, d)
    ensures AncestorsKept(ignorer, dirs + [d])
  {
    var below := dirs + [d];
    forall j | 0 <= j < |below|
      ensures DirKept(ignorer, below[..j], below[j])
    {
      if j < |dirs| {
        assert DirKept(ignorer, dirs[..j], dirs[j]);
        PrefixOfAppend(dirs, d, j);
      } else {
        PrefixOfAppend(dirs, d, j);
      }
    }
  }

  lemma PrefixOfAppend(dirs: seq<Name>, d: Name, j: nat)
    requires j <= |dirs|
    ensures (dirs + [d])[..j] == dirs[..j]
    ensures (dirs + [d])[j] == if j < |dirs| then dirs[j] else d
  {
  }

  /** A `.gitignore` in the directory reached through a non-empty `dirs` is
      consulted for every entry inside that directory or below it: its
      prefix, followed by a separator, starts their queries. */
  lemma NestedScopeCovers(dirs: seq<Name>, below: seq<Name>, e: Name)
    requires dirs != [] && dirs <= below
    ensures StartsWith(FileQuery(below, e), ScopePrefix(dirs) + "/")
    ensures StartsWith(DirQuery(below, e), ScopePrefix(dirs) + "/")
  {
    JoinRelPath(below, e);
    if |dirs| < |below| {
      RelPathBelow(dirs, below);
    } else {
      assert dirs == below;
    }
  }

  /** The prefix of a `.gitignore` starts the queries of everything in its
      directory and below it, the top one included. */
  lemma ScopeCovers(dirs: seq<Name>, below: seq<Name>, e: Name)
    requires dirs <= below
    ensures StartsWith(FileQuery(below, e), ScopePrefix(dirs))
    ensures StartsWith(DirQuery(below, e), ScopePrefix(dirs))
  {
    if dirs != [] {
      NestedScopeCovers(dirs, below, e);
    }
  }

  /** Where the index comes from, a `.gitignore` entry that matches a file's
      query, or the query of a directory above the file but at or below the
      `.gitignore`'s own directory, keeps the file out of the walk. */
  lemma GitignoreHidesBelow(compile: Compiler, top: seq<Node>, xtraRootPatterns: seq<string>,
                            ignorer: GitIgnorer, k: nat, f: Located, j: nat)
    requires BuiltFrom(ignorer, compile, xtraRootPatterns, GitignoresOf(top))
    requires k < |GitignoresOf(top)| && GitignoresOf(top)[k].dirs <= f.dirs
    requires j <= |f.dirs| && |GitignoresOf(top)[k].dirs| <= j
    requires var patterns := GitignoresOf(top)[k].patterns;
      if j == |f.dirs| then compile(patterns)(FileQuery(f.dirs, f.name))
      else compile(patterns)(DirQuery(f.dirs[..j], f.dirs[j]))
    ensures !Survives(ignorer, f)
  {
    var found := GitignoresOf(top)[k];
    if j == |f.dirs| {
      var q := FileQuery(f.dirs, f.name);
      ScopeCovers(found.dirs, f.dirs, f.name);
      DiscoveredEntryHides(ignorer, compile, xtraRootPatterns, GitignoresOf(top), k, q);
    } else {
      var q := DirQuery(f.dirs[..j], f.dirs[j]);
      PrefixOfPrefix(found.dirs, f.dirs, j);
      ScopeCovers(found.dirs, f.dirs[..j], f.dirs[j]);
      DiscoveredEntryHides(ignorer, compile, xtraRootPatterns, GitignoresOf(top), k, q);
      assert !DirKept(ignorer, f.dirs[..j], f.dirs[j]);
    }
  }

  lemma PrefixOfPrefix(a: seq<Name>, b: seq<Name>, j: nat)
    requires a <= b && |a| <= j <= |b|
    ensures a <= b[..j]
  {
    assert b[..j][..|a|] == b[..|a|];
  }

  /** The extra root patterns are consulted for every query. */
  lemma RootPatternsHide(compile: Compiler, top: seq<Node>, xtraRootPatterns: seq<string>,
                         ignorer: GitIgnorer, f: Located)
    requires BuiltFrom(ignorer, compile, xtraRootPatterns, GitignoresOf(top))
    requires compile(xtraRootPatterns)(FileQuery(f.dirs, f.name))
    ensures !Survives(ignorer, f)
  {
    assert Hit(ignorer.ignorerData, 0, FileQuery(f.dirs, f.name));
  }

  /** Nested prefixes carry no trailing separator, so a `.gitignore` in a
      directory is also consulted for the entries of every sibling whose
      name it starts: the one in `src` for those of `srcfoo`. */
  lemma SiblingScopeLeak(d: Name, sibling: Name, e: Name)
    requires StartsWith(sibling, d)
    ensures StartsWith(FileQuery([sibling], e), ScopePrefix([d]))
    ensures StartsWith(DirQuery([sibling], e), ScopePrefix([d]))
  {
    assert RelPath([d]) == d && RelPath([sibling]) == sibling;
  }
}
