/**
  The mapping description: a tree whose leaves are redirect targets (`File`)
  and whose inner nodes are folders mapping a component name to a child.
  `Lookup` walks a list of path components down the tree.
 */
module Mapping {

  import opened Wrappers

  /** A node of the mapping: a redirect target or a folder of named children. */
  datatype Path = File(path: string) | Folder(paths: map<string, Path>)

  /** Where an entry of the filesystem's flat mapping leads: a redirect to a host path, or a folder. */
  datatype Destination = File(path: string) | Folder

  /** A freshly created iterator over the entries of one folder's map. */
  datatype PathsIter = PathsIter(remaining: map<string, Path>)

  /** The depth-first iterator state: a stack of per-folder iterators. */
  datatype PathIter = PathIter(stack: seq<PathsIter>)

  /** Starts an iteration: nothing to visit below a file, one folder iterator for a folder. */
  function Iter(p: Path): (it: PathIter)
    ensures p.File? ==> it.stack == []
    ensures p.Folder? ==> |it.stack| == 1 && it.stack[0].remaining == p.paths
  {
    match p
    case File(_) => PathIter([])
    case Folder(paths) => PathIter([PathsIter(paths)])
  }

  /**
    The node reached by following the components `names` from `p`, if every
    component names an existing child of a folder.
   */
  function Follow(p: Path, names: seq<string>): Option<Path>
    decreases |names|
  {
    if names == [] then Some(p)
    else match p
      case File(_) => None
      case Folder(paths) =>
        if names[0] in paths then Follow(paths[names[0]], names[1..]) else None
  }

  /**
    The inputs on which `Lookup` does not panic: at every folder the walk
    passes through there is still a component left to index with.
   */
  predicate CanLookup(p: Path, names: seq<string>)
    decreases |names|
  {
    match p
    case File(_) => true
    case Folder(paths) =>
      |names| > 0 && (names[0] in paths ==> CanLookup(paths[names[0]], names[1..]))
  }

  /**
    Resolves `names` to the redirect target of the file it reaches: a file
    answers only when no component is left, a folder passes the tail to the
    child named by the first component, and a missing child gives `None`.
   */
  function Lookup(p: Path, names: seq<string>): (r: Option<string>)
    requires CanLookup(p, names)
    ensures r.Some? <==> Follow(p, names).Some? && Follow(p, names).value.File?
    ensures r.Some? ==> Follow(p, names) == Some(Path.File(r.value))
    decreases |names|
  {
    match p
    case File(path) => if names == [] then Some(path) else None
    case Folder(paths) =>
      if names[0] in paths then Lookup(paths[names[0]], names[1..]) else None
  }

  /** A file answers the empty component list with its own target. */
  lemma LookupFileEmpty(path: string)
    ensures Lookup(Path.File(path), []) == Some(path)
  {
  }

  /** A file answers any non-empty component list with `None`. */
  lemma LookupFileNonEmpty(path: string, names: seq<string>)
    requires names != []
    ensures Lookup(Path.File(path), names) == None
  {
  }

  /**
    On a folder, the first component selects the child and the rest is
    looked up in it; an absent first component gives `None`.
   */
  lemma LookupFolderStep(paths: map<string, Path>, c: string, rest: seq<string>)
    requires CanLookup(Path.Folder(paths), [c] + rest)
    ensures c in paths ==> CanLookup(paths[c], rest)
                           && Lookup(Path.Folder(paths), [c] + rest) == Lookup(paths[c], rest)
    ensures c !in paths ==> Lookup(Path.Folder(paths), [c] + rest) == None
  {
    assert ([c] + rest)[0] == c && ([c] + rest)[1..] == rest;
  }

  /** A folder cannot be looked up with an empty component list (`name[0]` panics). */
  lemma FolderNeedsComponent(paths: map<string, Path>)
    ensures !CanLookup(Path.Folder(paths), [])
  {
  }

  /**
    The precondition of `Lookup` holds exactly when the walk does not end on
    a folder: it either stops early or reaches a file.
   */
  lemma {:induction false} CanLookupIff(p: Path, names: seq<string>)
    ensures CanLookup(p, names) <==> !(Follow(p, names).Some? && Follow(p, names).value.Folder?)
    decreases |names|
  {
    match p
    case File(_) =>
    case Folder(paths) =>
      if names != [] && names[0] in paths {
        CanLookupIff(paths[names[0]], names[1..]);
      }
  }

  /** Following `a + b` is following `a` and then `b` from the node reached. */
  lemma {:induction false} FollowAppend(p: Path, a: seq<string>, b: seq<string>)
    ensures Follow(p, a + b) == match Follow(p, a)
                                case None => None
                                case Some(q) => Follow(q, b)
    decreases |a|
  {
    if a == [] {
      assert a + b == b;
    } else {
      assert (a + b)[0] == a[0] && (a + b)[1..] == a[1..] + b;
      match p
      case File(_) =>
      case Folder(paths) =>
        if a[0] in paths {
          FollowAppend(paths[a[0]], a[1..], b);
        }
    }
  }

  /**
    A successful lookup of a longer list passes through its prefix: the
    prefix reaches a folder from which the remaining components succeed.
   */
  lemma {:induction false} LookupThroughPrefix(p: Path, a: seq<string>, b: seq<string>, t: string)
    requires CanLookup(p, a + b) && Lookup(p, a + b) == Some(t)
    ensures Follow(p, a).Some?
    ensures CanLookup(Follow(p, a).value, b) && Lookup(Follow(p, a).value, b) == Some(t)
  {
    FollowAppend(p, a, b);
    var q := Follow(p, a).value;
    CanLookupIff(q, b);
  }

  /** The mapping of the repository's own lookup test: two folders and a
      file at the top, with one and two files inside the folders. */
  function FakeMapping(): (m: Path)
    ensures m.Folder? && m.paths.Keys == {"folder1", "folder2", "file1.txt"}
    ensures m.paths["folder1"].Folder? && m.paths["folder1"].paths.Keys == {"d1f1.txt"}
    ensures m.paths["folder2"].Folder? && m.paths["folder2"].paths.Keys == {"d2f1.txt", "d2f2.txt"}
  {
    Path.Folder(map[
      "folder1" := Path.Folder(map["d1f1.txt" := Path.File("/tmp/hello.txt")]),
      "folder2" := Path.Folder(map["d2f1.txt" := Path.File("/tmp/hello.txt"),
                                   "d2f2.txt" := Path.File("/tmp/hello.txt")]),
      "file1.txt" := Path.File("/tmp/hello.txt")
    ])
  }

  /** Each of the four files of the sample mapping redirects to "/tmp/hello.txt". */
  lemma FakeMappingLeaves()
    ensures Follow(FakeMapping(), ["file1.txt"]) == Some(Path.File("/tmp/hello.txt"))
    ensures Follow(FakeMapping(), ["folder1", "d1f1.txt"]) == Some(Path.File("/tmp/hello.txt"))
    ensures Follow(FakeMapping(), ["folder2", "d2f1.txt"]) == Some(Path.File("/tmp/hello.txt"))
    ensures Follow(FakeMapping(), ["folder2", "d2f2.txt"]) == Some(Path.File("/tmp/hello.txt"))
  {
    assert ["file1.txt"][1..] == [];
    assert ["folder1", "d1f1.txt"][1..] == ["d1f1.txt"];
    assert ["folder2", "d2f1.txt"][1..] == ["d2f1.txt"];
    assert ["folder2", "d2f2.txt"][1..] == ["d2f2.txt"];
    assert ["d1f1.txt"][1..] == [] && ["d2f1.txt"][1..] == [] && ["d2f2.txt"][1..] == [];
  }

  /** The two assertions of the repository's lookup test. */
  lemma TestLookup()
    ensures CanLookup(FakeMapping(), ["folder1", "d1f1.txt"])
    ensures Lookup(FakeMapping(), ["folder1", "d1f1.txt"]) == Some("/tmp/hello.txt")
    ensures CanLookup(FakeMapping(), ["folder1", "d1f2.txt"])
    ensures Lookup(FakeMapping(), ["folder1", "d1f2.txt"]) == None
  {
    var folder1 := FakeMapping().paths["folder1"];
    assert ["folder1", "d1f1.txt"][1..] == ["d1f1.txt"];
    assert ["folder1", "d1f2.txt"][1..] == ["d1f2.txt"];
    assert ["d1f1.txt"][1..] == [];
    assert "d1f2.txt" !in folder1.paths;
  }

}
