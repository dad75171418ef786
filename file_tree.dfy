/** The project directory as the selector sees it: a snapshot of directory
    listings standing in for `os.listdir`, `os.path.isdir`, `os.walk` and
    reading a file's lines. */
module FileTree {
  import opened Paths

  datatype Option<T> = None | Some(value: T)

  /** One entry of a directory listing: a file with its text lines (as
      `read().splitlines()` yields them), or a directory with its own
      listing, in listing order. */
  datatype Node =
    | File(name: Name, lines: seq<string>)
    | Dir(name: Name, children: seq<Node>)

  /** Number of entries in a listing and everything below it. */
  function Size(listing: seq<Node>): nat
  {
    if listing == [] then 0
    else (if listing[0].Dir? then 1 + Size(listing[0].children) else 1) + Size(listing[1..])
  }

  /** One tuple yielded by `os.walk`: the directory (by the names leading to
      it from the top) and its listing, from which `os.walk` derives the
      directory names and the file names it yields. */
  datatype WalkStep = WalkStep(dirs: seq<Name>, listing: seq<Node>)

  /** `os.walk` from the directory reached through `dirs`, top-down: the
      directory itself, then the walk of each subdirectory in listing order.
      The walk descends into every subdirectory: nothing is pruned. */
  function Walk(dirs: seq<Name>, listing: seq<Node>): (steps: seq<WalkStep>)
    ensures |steps| >= 1 && steps[0] == WalkStep(dirs, listing)
    ensures forall i | 0 <= i < |steps| :: dirs <= steps[i].dirs
    ensures forall i | 1 <= i < |steps| :: |dirs| < |steps[i].dirs|
    decreases listing, 1
  {
    [WalkStep(dirs, listing)] + WalkBelow(dirs, listing)
  }

  /** The walks of the subdirectories among `entries`, one after another. */
  function WalkBelow(dirs: seq<Name>, entries: seq<Node>): (steps: seq<WalkStep>)
    ensures forall i | 0 <= i < |steps| :: dirs <= steps[i].dirs && |dirs| < |steps[i].dirs|
    decreases entries, 0
  {
    if entries == [] then []
    else
      var here := match entries[0]
        case File(_, _) => []
        case Dir(name, children) => Walk(dirs + [name], children);
      assert forall i | 0 <= i < |here| :: dirs <= here[i].dirs && |dirs| < |here[i].dirs| by {
        forall i | 0 <= i < |here|
          ensures dirs <= here[i].dirs && |dirs| < |here[i].dirs|
        {
          var d := entries[0].name;
          assert dirs <= dirs + [d];
        }
      }
      here + WalkBelow(dirs, entries[1..])
  }

  /** A file of the tree: the directory holding it and its name. */
  datatype Located = Located(dirs: seq<Name>, name: Name)

  /** The files of one listing, in listing order. */
  function FilesIn(dirs: seq<Name>, listing: seq<Node>): (r: seq<Located>)
    ensures |r| <= |listing|
    ensures forall i | 0 <= i < |r| :: r[i].dirs == dirs
  {
    if listing == [] then []
    else (if listing[0].File? then [Located(dirs, listing[0].name)] else []) + FilesIn(dirs, listing[1..])
  }

  /** The files `os.walk` reports, step by step: the reference enumeration
      of every file of a tree, in top-down walk order. */
  function WalkFiles(steps: seq<WalkStep>): (r: seq<Located>)
  {
    if steps == [] then []
    else FilesIn(steps[0].dirs, steps[0].listing) + WalkFiles(steps[1..])
  }

  function AllFiles(top: seq<Node>): seq<Located>
  {
    WalkFiles(Walk([], top))
  }

  lemma {:induction false} WalkFilesAppend(a: seq<WalkStep>, b: seq<WalkStep>)
    ensures WalkFiles(a + b) == WalkFiles(a) + WalkFiles(b)
  {
    if a != [] {
      assert (a + b)[0] == a[0];
      assert (a + b)[1..] == a[1..] + b;
      WalkFilesAppend(a[1..], b);
    } else {
      assert a + b == b;
    }
  }

  /** Every file reported by a walk lies below every directory that all of
      the walk's steps lie below. */
  lemma {:induction false} WalkFilesBelow(steps: seq<WalkStep>, dirs: seq<Name>)
    requires forall i | 0 <= i < |steps| :: dirs <= steps[i].dirs
    ensures forall i | 0 <= i < |WalkFiles(steps)| :: dirs <= WalkFiles(steps)[i].dirs
  {
    if steps != [] {
      WalkFilesBelow(steps[1..], dirs);
      var here: seq<Located> := FilesIn(steps[0].dirs, steps[0].listing);
      var rest: seq<Located> := WalkFiles(steps[1..]);
      assert WalkFiles(steps) == here + rest;
      forall i | 0 <= i < |here + rest|
        ensures dirs <= (here + rest)[i].dirs
      {
        if i < |here| {
          assert (here + rest)[i] == here[i];
        } else {
          assert (here + rest)[i] == rest[i - |here|];
        }
      }
    }
  }
}
