/** The ignore engine: one compiled pattern set per scope (`PathspecIgnorer`)
    and the ordered index of scopes (`GitIgnorer`), built from the extra
    root patterns and every `.gitignore` found by walking the tree.

    The gitignore pattern language itself (wildcards, `**`, negation,
    directory-only patterns) belongs to the pattern engine and is taken as
    given: a compiler from pattern lines to a matcher on query paths. */
module Ignorers {
  import opened Paths
  import opened FileTree

  /** A query path an ignore check accepts: neither the root `/` nor empty. */
  predicate NonRoot(path: string)
  {
    path != "/" && path != ""
  }

  /** A compiled pattern set: which root-relative query paths it matches. */
  type Matcher = string -> bool

  /** The pattern engine's compiler (`GitIgnoreSpec.from_lines`). */
  type Compiler = seq<string> -> Matcher

  datatype PathspecIgnorer = PathspecIgnorer(pathspec: Matcher)
  {
    static function Create(compile: Compiler, ignorePatterns: seq<string>): PathspecIgnorer
    {
      PathspecIgnorer(compile(ignorePatterns))
    }

    /** Asking about the root itself is a caller error. */
    predicate Ignore(path: string)
      requires NonRoot(path)
    {
      pathspec(path)
    }
  }

  /** One scope of the index: a path prefix and the matcher consulted for the
      paths that start with it. */
  type Scope = (string, PathspecIgnorer)

  /** Entry `i` of `data` is consulted for `path` and matches it. */
  predicate Hit(data: seq<Scope>, i: int, path: string)
    requires 0 <= i < |data| && NonRoot(path)
  {
    StartsWith(path, data[i].0) && data[i].1.Ignore(path)
  }

  /** The entries of `data` whose prefix applies to `path`, in index order. */
  function InScope(data: seq<Scope>, path: string): (r: seq<Scope>)
    ensures |r| <= |data|
    ensures forall j | 0 <= j < |r| :: r[j] in data && StartsWith(path, r[j].0)
    ensures forall j | 0 <= j < |data| :: StartsWith(path, data[j].0) ==> data[j] in r
  {
    if data == [] then []
    else
      var rest := InScope(data[1..], path);
      assert forall j | 0 <= j < |rest| :: rest[j] in data by {
        forall j | 0 <= j < |rest| ensures rest[j] in data {
          var x := rest[j];
          var k :| 0 <= k < |data[1..]| && data[1..][k] == x;
          assert data[k + 1] == x;
        }
      }
      (if StartsWith(path, data[0].0) then [data[0]] else []) + rest
  }

  /** The consulted entries keep index order: selecting them from a
      concatenation selects from each part in turn. */
  lemma {:induction false} InScopeAppend(a: seq<Scope>, b: seq<Scope>, path: string)
    ensures InScope(a + b, path) == InScope(a, path) + InScope(b, path)
  {
    if a == [] {
      assert a + b == b;
    } else {
      assert (a + b)[0] == a[0];
      assert (a + b)[1..] == a[1..] + b;
      InScopeAppend(a[1..], b, path);
    }
  }

  datatype GitIgnorer = GitIgnorer(ignorerData: seq<Scope>)
  {
    /** A path is ignored iff some entry whose prefix starts it matches it;
        the scopes are united, none can re-include what another ignores. */
    predicate IsIgnored(path: string)
      requires NonRoot(path)
    {
      exists i | 0 <= i < |ignorerData| :: Hit(ignorerData, i, path)
    }

    /** The index scan: entries in order, stopping at the first whose prefix
        applies and whose matcher accepts the path. */
    method Ignore(path: string) returns (ignored: bool)
      requires NonRoot(path)
      ensures ignored == IsIgnored(path)
    {
      for i := 0 to |ignorerData|
        invariant forall j | 0 <= j < i :: !Hit(ignorerData, j, path)
      {
        var (prefix, ignorer) := ignorerData[i];
        if StartsWith(path, prefix) {
          if ignorer.Ignore(path) {
            assert Hit(ignorerData, i, path);
            return true;
          }
        }
      }
      return false;
    }
  }

  /** Scope isolation: only the entries whose prefix applies to a path decide
      whether it is ignored; with none of them, it is not ignored. */
  lemma {:induction false} ScopeIsolation(data: seq<Scope>, path: string)
    requires NonRoot(path)
    ensures GitIgnorer(data).IsIgnored(path) == GitIgnorer(InScope(data, path)).IsIgnored(path)
    ensures InScope(data, path) == [] ==> !GitIgnorer(data).IsIgnored(path)
  {
    if data != [] {
      ScopeIsolation(data[1..], path);
      var rest := InScope(data[1..], path);
      var head: seq<Scope> := if StartsWith(path, data[0].0) then [data[0]] else [];
      assert InScope(data, path) == head + rest;
      IndexUnion([data[0]], data[1..], path);
      assert [data[0]] + data[1..] == data;
      IndexUnion(head, rest, path);
      if head == [] {
        assert !Hit([data[0]], 0, path);
      }
    }
  }

  /** Removing an entry whose prefix does not apply to a path never changes
      whether that path is ignored. */
  lemma UnscopedEntryIrrelevant(data: seq<Scope>, k: nat, path: string)
    requires k < |data| && NonRoot(path)
    requires !StartsWith(path, data[k].0)
    ensures GitIgnorer(data[..k] + data[k + 1..]).IsIgnored(path) == GitIgnorer(data).IsIgnored(path)
  {
    assert data == data[..k] + [data[k]] + data[k + 1..];
    IndexUnion(data[..k] + [data[k]], data[k + 1..], path);
    IndexUnion(data[..k], [data[k]], path);
    IndexUnion(data[..k], data[k + 1..], path);
    assert !Hit([data[k]], 0, path);
  }

  /** The index of two concatenated entry lists ignores exactly what either
      list ignores. */
  lemma IndexUnion(a: seq<Scope>, b: seq<Scope>, path: string)
    requires NonRoot(path)
    ensures GitIgnorer(a + b).IsIgnored(path) <==> GitIgnorer(a).IsIgnored(path) || GitIgnorer(b).IsIgnored(path)
  {
    if GitIgnorer(a + b).IsIgnored(path) {
      var i :| 0 <= i < |a + b| && Hit(a + b, i, path);
      if i < |a| {
        assert (a + b)[i] == a[i];
        assert Hit(a, i, path);
      } else {
        assert (a + b)[i] == b[i - |a|];
        assert Hit(b, i - |a|, path);
      }
    }
    if GitIgnorer(a).IsIgnored(path) {
      var i :| 0 <= i < |a| && Hit(a, i, path);
      assert (a + b)[i] == a[i];
      assert Hit(a + b, i, path);
    }
    if GitIgnorer(b).IsIgnored(path) {
      var i :| 0 <= i < |b| && Hit(b, i, path);
      assert (a + b)[|a| + i] == b[i];
      assert Hit(a + b, |a| + i, path);
    }
  }

  /** The lines of the first file named `.gitignore` in a listing, if any. */
  function GitignoreIn(listing: seq<Node>): (r: Option<seq<string>>)
    ensures r.Some? <==> exists i | 0 <= i < |listing| :: listing[i].File? && listing[i].name == ".gitignore"
    ensures r.Some? ==> File(".gitignore", r.value) in listing
  {
    if listing == [] then None
    else if listing[0].File? && listing[0].name == ".gitignore" then Some(listing[0].lines)
    else
      var r := GitignoreIn(listing[1..]);
      assert forall i | 1 <= i < |listing| :: listing[i] == listing[1..][i - 1];
      r
  }

  /** The index prefix of a `.gitignore` found in the directory reached
      through `dirs`: `"/"` at the top, otherwise `"/"` and the relative path,
      with no separator at the end. */
  function ScopePrefix(dirs: seq<Name>): (prefix: string)
    ensures StartsWith(prefix, "/")
    ensures prefix == "/" <==> dirs == []
    ensures dirs != [] ==> prefix[|prefix| - 1] != '/'
  {
    var relpath := RelPath(dirs);
    if relpath == "." then "/" else "/" + relpath
  }

  /** A `.gitignore` as discovered: its directory and its pattern lines. */
  datatype Found = Found(dirs: seq<Name>, patterns: seq<string>)

  /** The `.gitignore` files of the walked directories, in walk order. */
  function Discovered(steps: seq<WalkStep>): (found: seq<Found>)
    ensures |found| <= |steps|
  {
    if steps == [] then []
    else
      var last := steps[|steps| - 1];
      var init := Discovered(steps[..|steps| - 1]);
      match GitignoreIn(last.listing)
      case None => init
      case Some(patterns) => init + [Found(last.dirs, patterns)]
  }

  /** Every discovered `.gitignore` is the one of a walked directory. */
  lemma {:induction false} DiscoveredSound(steps: seq<WalkStep>, k: nat)
    requires k < |Discovered(steps)|
    ensures exists i | 0 <= i < |steps| ::
      Discovered(steps)[k].dirs == steps[i].dirs && GitignoreIn(steps[i].listing) == Some(Discovered(steps)[k].patterns)
  {
    var init := steps[..|steps| - 1];
    var last := |steps| - 1;
    if k < |Discovered(init)| {
      DiscoveredSound(init, k);
      var i :| 0 <= i < |init| &&
        Discovered(init)[k].dirs == init[i].dirs && GitignoreIn(init[i].listing) == Some(Discovered(init)[k].patterns);
      assert init[i] == steps[i];
    } else {
      assert Discovered(steps)[k] == Found(steps[last].dirs, GitignoreIn(steps[last].listing).value);
    }
  }

  /** No walked directory's `.gitignore` is missed. */
  lemma {:induction false} DiscoveredComplete(steps: seq<WalkStep>, i: nat)
    requires i < |steps| && GitignoreIn(steps[i].listing).Some?
    ensures Found(steps[i].dirs, GitignoreIn(steps[i].listing).value) in Discovered(steps)
  {
    var init := steps[..|steps| - 1];
    if i < |steps| - 1 {
      assert init[i] == steps[i];
      DiscoveredComplete(init, i);
    }
  }

  /** Every directory with a `.gitignore`, from the walk of the whole tree. */
  function GitignoresOf(top: seq<Node>): seq<Found>
  {
    Discovered(Walk([], top))
  }

  /** A `.gitignore` at the top of the tree is discovered first, with the
      prefix `/` that covers every query path. */
  lemma TopGitignoreFirst(top: seq<Node>)
    requires GitignoreIn(top).Some?
    ensures |GitignoresOf(top)| >= 1
    ensures GitignoresOf(top)[0] == Found([], GitignoreIn(top).value)
    ensures ScopePrefix(GitignoresOf(top)[0].dirs) == "/"
  {
    var steps := Walk([], top);
    DiscoveredPrefix(steps, 1);
    assert steps[..1] == [WalkStep([], top)];
    assert Discovered(steps[..1]) == [Found([], GitignoreIn(top).value)] by {
      assert steps[..1][..0] == [];
    }
  }

  /** Discovery over a prefix of the walk is a prefix of the whole discovery. */
  lemma {:induction false} DiscoveredPrefix(steps: seq<WalkStep>, n: nat)
    requires n <= |steps|
    ensures Discovered(steps[..n]) <= Discovered(steps)
    decreases |steps|
  {
    if n < |steps| {
      var init := steps[..|steps| - 1];
      assert init[..n] == steps[..n];
      DiscoveredPrefix(init, n);
    } else {
      assert steps[..n] == steps;
    }
  }

  /** The `(prefix, patterns)` pair the index is built from, for one
      discovered `.gitignore`. */
  function Entry(f: Found): (e: (string, seq<string>))
    ensures e.1 == f.patterns
  {
    (ScopePrefix(f.dirs), f.patterns)
  }

  function Entries(found: seq<Found>): (r: seq<(string, seq<string>)>)
    ensures |r| == |found|
    ensures forall k | 0 <= k < |found| :: r[k] == Entry(found[k])
  {
    if found == [] then []
    else Entries(found[..|found| - 1]) + [Entry(found[|found| - 1])]
  }

  /** `_collect_gitignores`: consume the walk, keeping `(prefix, patterns)`
      for each directory holding a `.gitignore`. */
  method CollectGitignores(top: seq<Node>) returns (gitignores: seq<(string, seq<string>)>)
    ensures gitignores == Entries(GitignoresOf(top))
  {
    var steps := Walk([], top);
    gitignores := [];
    for i := 0 to |steps|
      invariant gitignores == Entries(Discovered(steps[..i]))
    {
      DiscoveredStep(steps, i);
      match GitignoreIn(steps[i].listing)
      case Some(patterns) =>
        var found := Discovered(steps[..i]) + [Found(steps[i].dirs, patterns)];
        assert found[..|found| - 1] == Discovered(steps[..i]);
        gitignores := gitignores + [(ScopePrefix(steps[i].dirs), patterns)];
      case None =>
    }
    assert steps[..|steps|] == steps;
  }

  /** Walking one more directory discovers its `.gitignore`, if it has one,
      after the earlier ones. */
  lemma DiscoveredStep(steps: seq<WalkStep>, i: nat)
    requires i < |steps|
    ensures Discovered(steps[..i + 1]) == Discovered(steps[..i]) + match GitignoreIn(steps[i].listing)
      case None => []
      case Some(patterns) => [Found(steps[i].dirs, patterns)]
  {
    assert steps[..i + 1][..i] == steps[..i];
    assert steps[..i + 1][i] == steps[i];
  }

  /** The index built by `from_git_root`: first the synthetic entry `/` with
      the extra root patterns, then one entry per discovered `.gitignore`, in
      discovery order, each with its own prefix and patterns. */
  ghost predicate BuiltFrom(g: GitIgnorer, compile: Compiler, xtraRootPatterns: seq<string>, found: seq<Found>)
  {
    && |g.ignorerData| == |found| + 1
    && g.ignorerData[0] == ("/", PathspecIgnorer.Create(compile, xtraRootPatterns))
    && forall k | 0 <= k < |found| ::
         g.ignorerData[k + 1] == (ScopePrefix(found[k].dirs), PathspecIgnorer.Create(compile, found[k].patterns))
  }

  /** In an index built from discovered `.gitignore` files, the patterns of
      each one ignore every query that starts with its prefix and that they
      match. */
  lemma DiscoveredEntryHides(g: GitIgnorer, compile: Compiler, xtraRootPatterns: seq<string>,
                             found: seq<Found>, k: nat, path: string)
    requires BuiltFrom(g, compile, xtraRootPatterns, found)
    requires k < |found| && NonRoot(path)
    requires StartsWith(path, ScopePrefix(found[k].dirs)) && compile(found[k].patterns)(path)
    ensures g.IsIgnored(path)
  {
    assert Hit(g.ignorerData, k + 1, path);
  }

  /** `GitIgnorer.from_git_root`: the extra root patterns under `/`, then
      one compiled entry per collected `.gitignore`. */
  method FromGitRoot(compile: Compiler, top: seq<Node>, xtraRootPatterns: seq<string>) returns (g: GitIgnorer)
    ensures BuiltFrom(g, compile, xtraRootPatterns, GitignoresOf(top))
  {
    var gitignores := CollectGitignores(top);
    var ignorerData := CompileScopes(compile, xtraRootPatterns, gitignores);
    g := GitIgnorer(ignorerData);
    BuiltFromEntries(g, compile, xtraRootPatterns, GitignoresOf(top));
  }

  /** The loop of `from_git_root` that appends one entry per collected
      `(prefix, patterns)` pair after the root entry. */
  method CompileScopes(compile: Compiler, xtraRootPatterns: seq<string>, gitignores: seq<(string, seq<string>)>)
    returns (ignorerData: seq<Scope>)
    ensures |ignorerData| == |gitignores| + 1
    ensures ignorerData[0] == ("/", PathspecIgnorer.Create(compile, xtraRootPatterns))
    ensures forall k | 0 <= k < |gitignores| ::
      ignorerData[k + 1] == (gitignores[k].0, PathspecIgnorer.Create(compile, gitignores[k].1))
  {
    ignorerData := [("/", PathspecIgnorer.Create(compile, xtraRootPatterns))];
    for i := 0 to |gitignores|
      invariant |ignorerData| == i + 1
      invariant ignorerData[0] == ("/", PathspecIgnorer.Create(compile, xtraRootPatterns))
      invariant forall k | 0 <= k < i ::
        ignorerData[k + 1] == (gitignores[k].0, PathspecIgnorer.Create(compile, gitignores[k].1))
    {
      var (relativePath, patterns) := gitignores[i];
      ignorerData := ignorerData + [(relativePath, PathspecIgnorer.Create(compile, patterns))];
    }
  }

  /** An index whose entries after the first compile the pairs of
      `Entries(found)`, in order, is built from `found`. */
  lemma BuiltFromEntries(g: GitIgnorer, compile: Compiler, xtraRootPatterns: seq<string>, found: seq<Found>)
    requires |g.ignorerData| == |Entries(found)| + 1
    requires g.ignorerData[0] == ("/", PathspecIgnorer.Create(compile, xtraRootPatterns))
    requires forall k | 0 <= k < |Entries(found)| ::
      g.ignorerData[k + 1] == (Entries(found)[k].0, PathspecIgnorer.Create(compile, Entries(found)[k].1))
    ensures BuiltFrom(g, compile, xtraRootPatterns, found)
  {
    forall k | 0 <= k < |found|
      ensures g.ignorerData[k + 1] == (ScopePrefix(found[k].dirs), PathspecIgnorer.Create(compile, found[k].patterns))
    {
      assert Entries(found)[k] == Entry(found[k]);
    }
  }
}
