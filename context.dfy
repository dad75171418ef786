/** `ContextSelector`: the full and outline selections, reconciled against
    the record the storage collaborator keeps between runs. */
module Context {
  import opened FileTree
  import opened Ignorers
  import opened Selector

  /** The stored selection record: a mapping from `"full"` and `"outline"`
      to file lists as the walk returns them. A record loaded from storage
      may lack either key. */
  type Record = map<string, seq<string>>

  /** `stored_context.get(key, [])` */
  function Get(record: Record, key: string): seq<string>
  {
    if key in record then record[key] else []
  }

  /** The record `update_selected` writes. */
  function Selected(fullFiles: seq<string>, outlineFiles: seq<string>): (r: Record)
    ensures Get(r, "full") == fullFiles && Get(r, "outline") == outlineFiles
  {
    map["full" := fullFiles, "outline" := outlineFiles]
  }

  /** `[f for f in xs if f not in set(excluded)]` */
  function Without(xs: seq<string>, excluded: seq<string>): (r: seq<string>)
    ensures forall x :: x in r <==> x in xs && x !in excluded
    ensures |r| <= |xs|
    ensures |r| == |xs| <==> forall i | 0 <= i < |xs| :: xs[i] !in excluded
  {
    if xs == [] then []
    else
      var rest := Without(xs[1..], excluded);
      assert forall i | 1 <= i < |xs| :: xs[i] == xs[1..][i - 1];
      if xs[0] in excluded then rest else [xs[0]] + rest
  }

  /** Order is kept: filtering a concatenation filters each part. */
  lemma {:induction false} WithoutAppend(a: seq<string>, b: seq<string>, excluded: seq<string>)
    ensures Without(a + b, excluded) == Without(a, excluded) + Without(b, excluded)
  {
    if a == [] {
      assert a + b == b;
    } else {
      assert (a + b)[0] == a[0];
      assert (a + b)[1..] == a[1..] + b;
      WithoutAppend(a[1..], b, excluded);
    }
  }

  /** Filtering twice by the same list removes nothing more. */
  lemma WithoutIdempotent(xs: seq<string>, excluded: seq<string>)
    ensures Without(Without(xs, excluded), excluded) == Without(xs, excluded)
  {
    var once := Without(xs, excluded);
    assert |Without(once, excluded)| == |once|;
    WithoutNothing(once, excluded);
  }

  /** Filtering by a list that shares nothing with `xs` leaves it as it is. */
  lemma {:induction false} WithoutNothing(xs: seq<string>, excluded: seq<string>)
    requires forall i | 0 <= i < |xs| :: xs[i] !in excluded
    ensures Without(xs, excluded) == xs
  {
    if xs != [] {
      WithoutNothing(xs[1..], excluded);
      assert [xs[0]] + xs[1..] == xs;
    }
  }

  /** What one selection operation leaves behind: the record written back,
      the files it returns and whether it warned. */
  datatype Selection = Selection(record: Record, files: seq<string>, warned: bool)

  /** `select_full_files` once the full walk has produced `fullFiles`. */
  function SelectFull(stored: Record, fullFiles: seq<string>): Selection
  {
    var outlineFiles := Get(stored, "outline");
    var updatedOutlineFiles := Without(outlineFiles, fullFiles);
    Selection(Selected(fullFiles, updatedOutlineFiles), fullFiles, |outlineFiles| != |updatedOutlineFiles|)
  }

  /** `select_outline_files` once the outline walk has produced
      `allOutlineFiles`. */
  function SelectOutline(stored: Record, allOutlineFiles: seq<string>): Selection
  {
    var fullFiles := Get(stored, "full");
    var outlineFiles := Without(allOutlineFiles, fullFiles);
    Selection(Selected(fullFiles, outlineFiles), outlineFiles, fullFiles == [])
  }

  /** No file is stored both as full and as outline. */
  predicate Disjoint(record: Record)
  {
    forall x :: x in Get(record, "full") ==> x !in Get(record, "outline")
  }

  /** Full selection stores and returns the walked files, drops them from
      the stored outline and warns exactly when that dropped something. */
  lemma SelectFullMoves(stored: Record, fullFiles: seq<string>)
    ensures var s := SelectFull(stored, fullFiles);
      && s.files == fullFiles
      && Get(s.record, "full") == fullFiles
      && (forall x :: x in Get(s.record, "outline") <==> x in Get(stored, "outline") && x !in fullFiles)
      && (s.warned <==> exists x :: x in Get(stored, "outline") && x in fullFiles)
      && Disjoint(s.record)
  {
    var outline := Get(stored, "outline");
    if forall x :: x in outline ==> x !in fullFiles {
      assert forall i | 0 <= i < |outline| :: outline[i] in outline;
    } else {
      var x :| x in outline && x in fullFiles;
      var i :| 0 <= i < |outline| && outline[i] == x;
    }
  }

  /** Outline selection keeps the stored full list, returns the walked
      outline files minus the full ones, stores exactly those, and warns
      exactly when no full file is stored. */
  lemma SelectOutlineExcludesFull(stored: Record, allOutlineFiles: seq<string>)
    ensures var s := SelectOutline(stored, allOutlineFiles);
      && Get(s.record, "full") == Get(stored, "full")
      && Get(s.record, "outline") == s.files
      && (forall x :: x in s.files <==> x in allOutlineFiles && x !in Get(stored, "full"))
      && (s.warned <==> Get(stored, "full") == [])
      && Disjoint(s.record)
  {
  }

  /** A second full selection on the same tree moves nothing, does not warn
      and leaves the record as the first one wrote it. */
  lemma SelectFullTwice(stored: Record, fullFiles: seq<string>)
    ensures var first := SelectFull(stored, fullFiles);
      SelectFull(first.record, fullFiles) == Selection(first.record, fullFiles, false)
  {
    var first := SelectFull(stored, fullFiles);
    var outline := Without(Get(stored, "outline"), fullFiles);
    WithoutIdempotent(Get(stored, "outline"), fullFiles);
    assert Get(first.record, "outline") == outline;
  }

  /** Outline selection after a full selection returns no full file and
      keeps the full list the full selection stored. */
  lemma OutlineAfterFull(stored: Record, fullFiles: seq<string>, allOutlineFiles: seq<string>)
    ensures var s := SelectOutline(SelectFull(stored, fullFiles).record, allOutlineFiles);
      && Get(s.record, "full") == fullFiles
      && s.files == Without(allOutlineFiles, fullFiles)
      && (s.warned <==> fullFiles == [])
  {
  }

  class ContextSelector {
    const fullSelector: FileSelector
    const outlineSelector: FileSelector
    /** The record held by the storage collaborator. */
    var stored: Record

    /** `ContextSelector.create`: both selectors share the project root and
        tree, each with its own extra root patterns. */
    constructor Create(compile: Compiler, rootPath: string, top: seq<Node>,
                       fullPathspecs: seq<string>, outlinePathspecs: seq<string>, storedContext: Record)
      ensures fullSelector.rootPath == rootPath && outlineSelector.rootPath == rootPath
      ensures BuiltFrom(fullSelector.ignorer, compile, fullPathspecs, GitignoresOf(top))
      ensures BuiltFrom(outlineSelector.ignorer, compile, outlinePathspecs, GitignoresOf(top))
      ensures stored == storedContext
    {
      var full := FileSelector.Create(compile, rootPath, top, fullPathspecs);
      var outline := FileSelector.Create(compile, rootPath, top, outlinePathspecs);
      fullSelector, outlineSelector := full, outline;
      stored := storedContext;
    }

    method SelectFullFiles(top: seq<Node>) returns (fullFiles: seq<string>, warned: bool)
      modifies this
      ensures fullFiles == fullSelector.GetFiles(top)
      ensures SelectFull(old(stored), fullFiles) == Selection(stored, fullFiles, warned)
      ensures Disjoint(stored)
    {
      fullFiles := fullSelector.GetFiles(top);
      var outlineFiles := Get(stored, "outline");
      var updatedOutlineFiles := Without(outlineFiles, fullFiles);
      warned := |outlineFiles| != |updatedOutlineFiles|;
      UpdateSelected(fullFiles, updatedOutlineFiles);
      SelectFullMoves(old(stored), fullFiles);
    }

    method SelectOutlineFiles(top: seq<Node>) returns (outlineFiles: seq<string>, warned: bool)
      modifies this
      ensures SelectOutline(old(stored), outlineSelector.GetFiles(top)) == Selection(stored, outlineFiles, warned)
      ensures Disjoint(stored)
    {
      var fullFiles := Get(stored, "full");
      warned := fullFiles == [];
      var allOutlineFiles := outlineSelector.GetFiles(top);
      outlineFiles := Without(allOutlineFiles, fullFiles);
      UpdateSelected(fullFiles, outlineFiles);
      SelectOutlineExcludesFull(old(stored), allOutlineFiles);
    }

    method UpdateSelected(fullFiles: seq<string>, outlineFiles: seq<string>)
      modifies this
      ensures stored == Selected(fullFiles, outlineFiles)
    {
      stored := Selected(fullFiles, outlineFiles);
    }
  }
}
