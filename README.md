# llm-context file selection, modelled in Dafny

This project models the file-selection core of `llm-context`
(`src/llm_context/file_selector.py`). The core has three parts:

- **The scoped ignore index (`GitIgnorer`).** It is an ordered list of
  `(prefix, matcher)` scopes:
  - first a synthetic `"/"` scope for the extra root patterns;
  - then one scope per `.gitignore` found by walking the whole project tree,
    in walk order.

  A query path is ignored exactly when some scope whose prefix starts the
  path has a matcher that accepts it.
- **The pruning walk (`FileSelector.traverse` / `get_files`).** It lists the
  project files the index lets through. It asks the index about every entry
  of a directory: `"/<rel>/<name>/"` for a directory and `"/<rel>/<name>"`
  for a file. It never enters an ignored directory. Its result holds the
  surviving files of the current directory first, then the walks of the
  surviving subdirectories, all in listing order.
- **Selection reconciliation (`ContextSelector`).** It holds two walks, the
  full one and the outline one, and a stored record
  `{"full": …, "outline": …}`:
  - a full selection stores the walked files and drops them from the
    stored outline;
  - an outline selection stores the outline walk minus the stored full
    files;
  - each returns a warning flag.

## How the model is built

- **Modules.** There are five, one per concern:
  - `Paths`: `os.path.join` and `os.path.relpath` as far as the query strings
    need them.
  - `FileTree`: the project tree as listings; the unpruned `os.walk` order.
  - `Ignorers`: `PathspecIgnorer`, `GitIgnorer`, `.gitignore` discovery and
    the building of the index.
  - `Selector`: `FileSelector`.
  - `Context`: `ContextSelector`.

  A sixth, `Scenarios`, works one walk through to its result.
- **Inputs.** The project tree is a value: a listing of `File(name, lines)`
  and `Dir(name, children)` nodes. The pattern engine is a parameter: a
  `Compiler` from pattern lines to a predicate on query paths. Everything
  proved outside `Scenarios` holds for every pattern engine. The worked
  walk in `Scenarios` fixes one matcher instead: the single `/` scope accepts
  exactly the directory query of the top-level directory `b` (what a root
  pattern `b/` asks of this tree), and nothing else.
- **Imperative parts.** The scans that loop and append are methods with
  loop invariants, each proved against a specification function:
  - `GitIgnorer.Ignore`;
  - `CollectGitignores`;
  - the `from_git_root` loop, `CompileScopes`.

  `ContextSelector` is a class. Its `stored` field stands for the record that
  the storage collaborator keeps, and its selection methods overwrite it.
- **Pure parts.** `traverse` and the list filters are recursive functions.
- **Main theorem.** `TraverseIsPrunedWalk` proves that the pruning walk
  returns exactly the files of the unpruned `os.walk` enumeration that
  survive. A file survives when neither it nor any directory above it is
  ignored. The files keep their order. `GetFiles` states this for the whole
  tree.

### Behaviour of the code worth knowing

- **Nested scope prefixes have no trailing separator.** A `.gitignore` in
  `src` gets the prefix `"/src"`, not `"/src/"`
  (`src/llm_context/file_selector.py:44`). Its patterns are therefore also
  consulted for the paths of a sibling such as `srcfoo`.
  `Selector.SiblingScopeLeak` states this.
- **Top-level queries read `"/./name"`.** At the root, `os.path.relpath`
  yields `"."`, so a top-level directory `build` is asked about as
  `"/./build/"` (`Scenarios.BuildQuery`).
- **Result order.** The walk returns a directory's own files before any
  subdirectory's files (`src/llm_context/file_selector.py:88`). A tree listing
  `src/main.go`, `build/out.bin` and `README.md`, with `build` ignored, is
  therefore listed as `README.md`, then `src/main.go`
  (`Scenarios.BuildDirectoryPruned`).

## Model

| member | source | states |
|---|---|---|
| Paths.Join | src/llm_context/file_selector.py:76 | the joined path starts with the directory, ends with the name, and has a separator just before the name when the directory is not empty |
| Paths.RelPath | src/llm_context/file_selector.py:72 | the relative path of a directory is never empty and never ends in a separator; it is `.` exactly at the root, and otherwise starts with the first directory name |
| Paths.DirPath | src/llm_context/file_selector.py:76 | the path of a directory reached by joining names from the root starts with the root path |
| Paths.RelPathBelow | src/llm_context/file_selector.py:72 | the relative path of a directory below a non-root directory `d` starts with `d`'s relative path followed by a separator |
| FileTree.Walk | src/llm_context/file_selector.py:39 | `os.walk` yields the starting directory first, and every later step is a strictly deeper directory below it |
| FileTree.WalkFilesBelow | src/llm_context/file_selector.py:39 | every file a walk reports lies below every directory that all the walk's steps lie below |
| Ignorers.PathspecIgnorer.Create | src/llm_context/file_selector.py:15-17 | compiles the pattern lines with the engine's compiler; no contract of its own, its use is stated by `Ignorers.CompileScopes` and `Ignorers.DiscoveredEntryHides` |
| Ignorers.PathspecIgnorer.Ignore | src/llm_context/file_selector.py:19-21 | asks the compiled matcher; its precondition refuses `/` and the empty path, as the assertion does; no contract beyond that, the matcher being abstract |
| Ignorers.GitIgnorer.IsIgnored | src/llm_context/file_selector.py:48-54 | the specification of the scan: some entry's prefix starts the path and its matcher accepts it; `Ignorers.GitIgnorer.Ignore` is proved equal to it, and `Ignorers.ScopeIsolation` and `Ignorers.IndexUnion` state its properties |
| Ignorers.GitIgnorer.Ignore | src/llm_context/file_selector.py:48-54 | the scan that returns on the first applicable matching entry answers true exactly when some entry's prefix starts the path and its matcher accepts it; the root path and the empty path are refused |
| Ignorers.InScopeAppend | src/llm_context/file_selector.py:50 | the consulted entries keep index order: selecting from a concatenation selects from each part in turn |
| Ignorers.InScope | src/llm_context/file_selector.py:50-51 | the entries consulted for a path are entries of the index, and exactly those whose prefix starts it |
| Ignorers.ScopeIsolation | src/llm_context/file_selector.py:50-53 | the answer depends only on the entries whose prefix starts the path; with no such entry the path is not ignored |
| Ignorers.UnscopedEntryIrrelevant | src/llm_context/file_selector.py:50-53 | removing an entry whose prefix does not start the path leaves the answer unchanged |
| Ignorers.IndexUnion | src/llm_context/file_selector.py:50-54 | the index of two lists of scopes ignores a path exactly when either list does: no scope can re-include what another ignores |
| Ignorers.GitignoreIn | src/llm_context/file_selector.py:40-42 | a directory has patterns exactly when its listing holds a file named `.gitignore`, and the patterns are that file's lines |
| Ignorers.ScopePrefix | src/llm_context/file_selector.py:43-44 | a scope prefix starts with `/`; it is `/` exactly for the top directory; nested prefixes do not end in a separator |
| Ignorers.Discovered | src/llm_context/file_selector.py:39-45 | the discovered `.gitignore` files of a walk, at most one per step; their meaning is stated by `Ignorers.DiscoveredSound`, `Ignorers.DiscoveredComplete`, `Ignorers.DiscoveredPrefix` and `Ignorers.DiscoveredStep` |
| Ignorers.GitignoresOf | src/llm_context/file_selector.py:37-46 | discovery over the walk of the whole tree; `Ignorers.CollectGitignores` is proved to compute its entries and `Ignorers.TopGitignoreFirst` states its head |
| Ignorers.DiscoveredSound | src/llm_context/file_selector.py:39-45 | every discovered entry is the directory and the `.gitignore` lines of some walked directory |
| Ignorers.DiscoveredComplete | src/llm_context/file_selector.py:39-45 | every walked directory with a `.gitignore` is discovered, with its lines |
| Ignorers.DiscoveredPrefix | src/llm_context/file_selector.py:39-45 | discovery over a prefix of the walk is a prefix of the whole discovery: entries keep walk order |
| Ignorers.DiscoveredStep | src/llm_context/file_selector.py:39-45 | one more walk step adds that directory's `.gitignore` at the end, or nothing when it has none |
| Ignorers.TopGitignoreFirst | src/llm_context/file_selector.py:43-45 | a `.gitignore` in the top directory is discovered first, with prefix `/` |
| Ignorers.Entries | src/llm_context/file_selector.py:45 | the collected list holds, position by position, each discovered directory's prefix and patterns |
| Ignorers.CollectGitignores | src/llm_context/file_selector.py:37-46 | the loop over the walk collects exactly the prefixes and lines of the tree's `.gitignore` files, in walk order |
| Ignorers.CompileScopes | src/llm_context/file_selector.py:30-33 | the index holds the `/` scope with the compiled extra root patterns first, then each collected `.gitignore` compiled under its prefix, in order |
| Ignorers.FromGitRoot | src/llm_context/file_selector.py:29-34 | the index built from a tree is the `/` scope followed by one scope per discovered `.gitignore`, in discovery order |
| Ignorers.BuiltFromEntries | src/llm_context/file_selector.py:32-33 | an index laid out from the collected entries is the one built from the discovered `.gitignore` files |
| Ignorers.DiscoveredEntryHides | src/llm_context/file_selector.py:50-53 | a path under a discovered `.gitignore`'s prefix that its patterns match is ignored by the built index |
| Selector.DirQuery | src/llm_context/file_selector.py:78 | a directory query is never the root, starts with `/` and ends with `/` |
| Selector.FileQuery | src/llm_context/file_selector.py:85 | a file query is never the root, starts with `/` and does not end with `/` |
| Selector.AbsPath | src/llm_context/file_selector.py:83 | a returned file path starts with the root path |
| Selector.Kept | src/llm_context/file_selector.py:73-86 | the files that survive, in their order: a file is kept exactly when neither it nor any directory above it is ignored |
| Selector.AbsPaths | src/llm_context/file_selector.py:83 | one absolute path per file, position by position |
| Selector.FileSelector.Create | src/llm_context/file_selector.py:63-65 | the selector keeps the root path and its index is built from the extra patterns and the tree's `.gitignore` files |
| Selector.FileSelector.GetFiles | src/llm_context/file_selector.py:67-68 | the files returned are the surviving files of the whole tree, in `os.walk` order, joined onto the root path |
| Selector.FileSelector.SurvivingDirs | src/llm_context/file_selector.py:73-79 | the entries the walk recurses into are exactly the listing's directories whose directory query is not ignored |
| Selector.FileSelector.Traverse | src/llm_context/file_selector.py:70-88 | the surviving files of the directory, then the traversals of its surviving subdirectories; what it returns is stated by `Selector.TraverseIsPrunedWalk` |
| Selector.FileSelector.SurvivingFiles | src/llm_context/file_selector.py:80-86 | the `files` comprehension; stated by `Selector.SurvivingFilesAreKept` |
| Selector.FileSelector.SubdirFiles | src/llm_context/file_selector.py:87 | the concatenated traversals of the surviving subdirectories; stated by `Selector.SubdirFilesArePrunedWalk` |
| Selector.TraverseIsPrunedWalk | src/llm_context/file_selector.py:70-88 | below directories that are not ignored, the pruning walk of a directory equals the unpruned walk of it filtered by survival |
| Selector.SurvivingFilesAreKept | src/llm_context/file_selector.py:80-86 | the files comprehension returns the directory's surviving files in listing order |
| Selector.PrunedSubtree | src/llm_context/file_selector.py:77-78 | nothing below an ignored directory survives, even files no pattern matches |
| Selector.SubdirFilesArePrunedWalk | src/llm_context/file_selector.py:87 | the concatenated walks of the surviving subdirectories equal the surviving files of all the subdirectories' walks, in listing order |
| Selector.SubdirStep | src/llm_context/file_selector.py:87 | one more subdirectory at the head of the listing adds its surviving files in front, whether it is entered or pruned |
| Selector.KeptSubdirHead | src/llm_context/file_selector.py:87 | a surviving head subdirectory is walked first, before the rest |
| Selector.AncestorsKeptBelow | src/llm_context/file_selector.py:78 | entering a directory that is not ignored keeps every ancestor of its entries unignored |
| Selector.ScopeCovers | src/llm_context/file_selector.py:44 | a directory's scope prefix starts every query asked below it |
| Selector.NestedScopeCovers | src/llm_context/file_selector.py:44 | below a nested scope, queries start with its prefix followed by a separator |
| Selector.GitignoreHidesBelow | src/llm_context/file_selector.py:31-33 | a file is not listed when a `.gitignore` above it matches the file itself or one of its directories below that `.gitignore` |
| Selector.RootPatternsHide | src/llm_context/file_selector.py:30 | a file matched by the extra root patterns is never listed |
| Selector.SiblingScopeLeak | src/llm_context/file_selector.py:44 | the scope `/d` also covers the queries of a sibling directory whose name starts with `d` |
| Context.Get | src/llm_context/file_selector.py:114 | a stored list, or the empty list when the record lacks the key; used by `Context.SelectFullMoves` and `Context.SelectOutlineExcludesFull` |
| Context.SelectFull | src/llm_context/file_selector.py:111-121 | the record, files and warning of a full selection; stated by `Context.SelectFullMoves` and `Context.SelectFullTwice` |
| Context.SelectOutline | src/llm_context/file_selector.py:123-133 | the record, files and warning of an outline selection; stated by `Context.SelectOutlineExcludesFull` and `Context.OutlineAfterFull` |
| Context.Selected | src/llm_context/file_selector.py:135-138 | the written record reads back the given full and outline lists |
| Context.Without | src/llm_context/file_selector.py:115 | the filter keeps exactly the elements not excluded; it shortens the list exactly when some element is excluded |
| Context.WithoutAppend | src/llm_context/file_selector.py:131 | the filter keeps order: filtering a concatenation filters each part |
| Context.WithoutIdempotent | src/llm_context/file_selector.py:115 | filtering twice by the same list removes nothing more |
| Context.WithoutNothing | src/llm_context/file_selector.py:115 | filtering by a list that shares nothing with the input returns it unchanged |
| Context.SelectFullMoves | src/llm_context/file_selector.py:111-121 | a full selection returns and stores the walked files; the stored outline is the old one without them; it warns exactly when the old outline held one of them; the record stays disjoint |
| Context.SelectOutlineExcludesFull | src/llm_context/file_selector.py:123-133 | an outline selection keeps the stored full list, returns and stores the outline walk without full files, and warns exactly when no full file is stored; the record stays disjoint |
| Context.SelectFullTwice | src/llm_context/file_selector.py:115-120 | a second full selection on the same tree removes nothing, does not warn and leaves the record unchanged |
| Context.OutlineAfterFull | src/llm_context/file_selector.py:131-132 | an outline selection after a full one returns no full file and keeps the full list just stored |
| Context.ContextSelector.Create | src/llm_context/file_selector.py:100-109 | both selectors share the root path, each with an index built from its own extra patterns; the stored record is the one loaded |
| Context.ContextSelector.SelectFullFiles | src/llm_context/file_selector.py:111-121 | returns the full walk, and the new record and warning are those of a full selection; the record is disjoint afterwards |
| Context.ContextSelector.SelectOutlineFiles | src/llm_context/file_selector.py:123-133 | the returned files, new record and warning are those of an outline selection over the outline walk; the record is disjoint afterwards |
| Context.ContextSelector.UpdateSelected | src/llm_context/file_selector.py:135-138 | the stored record becomes `{full, outline}` |
| Scenarios.BuildQuery | src/llm_context/file_selector.py:78 | the query for the top-level directory `build` is `/./build/` |
| Scenarios.DirQueryInjective | src/llm_context/file_selector.py:78 | two entries of one directory with different names get different directory queries |
| Scenarios.BuildDirectoryPruned | src/llm_context/file_selector.py:70-88 | with root patterns matching the top-level directory `b`, a tree holding `s/m`, `b/o` and `r` lists `r` and then `s/m`; `b` is pruned |
| Scenarios.NestedPath | src/llm_context/file_selector.py:76 | a file one level down is returned as `root/d/f` |

## Left out

- The gitignore pattern language (`GitIgnoreSpec.from_lines` and `match_file`, lines 16 and 21) is foreign code. A matcher is any predicate on query paths, produced by a `Compiler` parameter. Negation, `**` and directory-only patterns are therefore not modelled. Neither is the syntax error the compiler may raise.
- Filesystem access (`os.walk`, `os.listdir`, `os.path.isdir`, `open` and `read().splitlines()`) is replaced by a tree value that already holds every listing and each file's lines. The model does not capture missing directories, unreadable files, symbolic links, or a tree that changes between the discovery walk and the selection walk.
- Ignorers.PathspecIgnorer.Ignore: the assertion that refuses `/` and the empty path is a precondition. Nothing beyond that precondition is stated, because the matcher is abstract.
- Ignorers.GitIgnorer.Ignore: the early `return` is modelled as a scan that stops at the first hit. Its contract states the answer, not how many entries were read.
- Ignorers.Entries and Ignorers.CollectGitignores: when a listing holds more than one entry named `.gitignore`, the first one's lines are taken; a real directory cannot hold two.
- `ProjectSettings`, configuration loading and context storage (lines 101-106, 113, 124 and 136) are left out. The root path and the two pattern lists are parameters of `ContextSelector.Create`. The loaded record is its `storedContext` parameter. The written record is the `stored` field.
- `warnings.warn` (lines 117 and 127) becomes a returned flag. `print` and the module-level `select_full_files` and `select_outline_files` functions (lines 141-150) only report counts, so they are left out.
- `main` (lines 153-157) calls `select_outline_files` with an argument that the method does not take, so it cannot run; it is not part of this model.
- `get_all` (lines 90-91) is the same walk as `get_files`; `FileSelector.GetFiles` stands for both.
- `os.path.join` and `os.path.relpath` are modelled with POSIX separators, for listing names that hold no separator and are neither `.` nor `..`. The model does not normalise the root path: it is joined as given.
