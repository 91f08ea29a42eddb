/**
 * The mock workspace server (src/v1/mock_client.rs): a whole directory tree
 * held in memory, and `fetch_directory`, which walks a path down that tree
 * by entry name and returns a copy of the directory it reaches, pruned to a
 * depth when asked.
 */
module MockClient {
  import opened Wrappers
  import opened Common
  import opened Model

  /** Rust's `u32`. */
  type U32 = n: nat | n < 0x1_0000_0000

  /** `DirectoryFetchOptions`. Its name filter is not implemented by the mock
    * server and is not modelled. */
  datatype DirectoryFetchOptions = DirectoryFetchOptions(depthLimit: Option<U32>)

  /** What `fetch_directory` ends in: `Ok(Some(dir))`, `Ok(None)`, or the
    * panic on meeting an unloaded directory on the way. */
  datatype FetchOutcome = Found(dir: Directory) | NotFound | UnloadedDirectory

  /** `entries().iter().find(|entry| entry.name() == name)`: the index of the
    * first entry with that name. */
  function FindEntry(entries: seq<DirectoryEntry>, name: string): (r: Option<nat>)
    ensures r.Some? ==> r.value < |entries| && entries[r.value].name == name
    ensures r.Some? ==> forall j :: 0 <= j < r.value ==> entries[j].name != name
    ensures r.None? ==> forall j :: 0 <= j < |entries| ==> entries[j].name != name
  {
    if entries == [] then None
    else if entries[0].name == name then Some(0)
    else match FindEntry(entries[1..], name)
      case None => None
      case Some(i) => Some(i + 1)
  }

  /** One step of the walk: into the loaded sub-directory named `component`,
    * or the end of the walk when there is no such entry, it is a file, or it
    * is unloaded. */
  function StepInto(current: Directory, component: string): (r: FetchOutcome)
    ensures r.Found? ==> forall f :: f in Files(r.dir) ==> f in Files(current)
    ensures FindEntry(current.entries, component).None? ==> r == NotFound
    ensures FindEntry(current.entries, component).Some? ==>
      var info := current.entries[FindEntry(current.entries, component).value].info;
      && (info.File? ==> r == NotFound)
      && (info == Dir(None) ==> r == UnloadedDirectory)
      && (info.Dir? && info.dir.Some? ==> r == Found(info.dir.value))
  {
    match FindEntry(current.entries, component)
    case None => NotFound
    case Some(i) =>
      match current.entries[i].info
      case Dir(Some(sub)) => EntryFilesIn(current.relativePath, current.entries, i); Found(sub)
      case Dir(None) => UnloadedDirectory
      case File(_, _, _) => NotFound
  }

  /** The walk over a sequence of components, from `d`. The directory it
    * reaches is part of `d`: every file below it is a file of `d`. */
  function Resolve(d: Directory, cs: seq<string>): (r: FetchOutcome)
    ensures r.Found? ==> forall f :: f in Files(r.dir) ==> f in Files(d)
    decreases |cs|
  {
    if cs == [] then Found(d)
    else match StepInto(d, cs[0])
      case Found(sub) => Resolve(sub, cs[1..])
      case other => other
  }

  /** `fetch_directory` on the tree `tree`: the empty path gives the whole
    * tree, whatever the depth limit; any other path is walked component by
    * component, and the directory reached is pruned when a limit is given. */
  function Fetch(tree: Directory, path: RelativePath, options: DirectoryFetchOptions): (r: FetchOutcome)
    ensures IsEmpty(path) ==> r == Found(tree)
    ensures r.Found? && options.depthLimit.None? ==> forall f :: f in Files(r.dir) ==> f in Files(tree)
  {
    if IsEmpty(path) then Found(tree)
    else match Resolve(tree, ComponentsOf(path))
      case Found(d) =>
        Found(if options.depthLimit.Some? then Pruned(d, options.depthLimit.value) else d)
      case other => other
  }

  /** `MockWorkspaceApi`. The request latency range only feeds the random
    * delay, which is not modelled. */
  class MockWorkspaceApi {
    var fullDirectoryTree: Directory

    /** `new`: an empty root. */
    constructor ()
      ensures fullDirectoryTree == NewDirectory("", [])
    {
      fullDirectoryTree := NewDirectory("", []);
    }

    /** `fetch_directory`, without the delay. */
    method FetchDirectory(path: RelativePath, options: DirectoryFetchOptions) returns (r: FetchOutcome)
      ensures r == Fetch(fullDirectoryTree, path, options)
    {
      if IsEmpty(path) {
        return Found(fullDirectoryTree);
      }
      var reached := Walk(fullDirectoryTree, path);
      if !reached.Found? {
        return reached;
      }
      var directory := reached.dir;
      if options.depthLimit.Some? {
        directory := PruneToDepth(directory, options.depthLimit.value);
      }
      return Found(directory);
    }
  }

  /** One turn of the loop of `fetch_directory`: find the entry named `component` in `current`
    * and step into it if it is a loaded directory. */
  method Enter(current: Directory, component: string) returns (r: FetchOutcome)
    ensures r == StepInto(current, component)
  {
    var entryOpt := FindEntry(current.entries, component);
    if entryOpt.None? {
      return NotFound;
    }
    match current.entries[entryOpt.value].info {
      case Dir(Some(dirInfo)) =>
        return Found(dirInfo);
      case Dir(None) =>
        return UnloadedDirectory;
      case File(_, _, _) =>
        return NotFound;
    }
  }

  /** The loop of `fetch_directory`: from `tree`, one component of `path` at
    * a time, into the loaded sub-directory of that name, stopping at a
    * missing name, a file or an unloaded directory. */
  method Walk(tree: Directory, path: RelativePath) returns (r: FetchOutcome)
    ensures r == Resolve(tree, ComponentsOf(path))
  {
    var current := tree;
    var it := Components(path);
    ghost var cs := ComponentsOf(path);
    ghost var k: nat := 0;
    while true
      invariant it.Valid() && it.inner == path
      invariant k <= |cs| && it.index == Offset(path, k)
      invariant Resolve(tree, cs) == Resolve(current, cs[k..])
      decreases |cs| - k
    {
      var component := it.Next();
      assert component == (if k < |cs| then Some(cs[k]) else None) by { StepFrom(path, k); }
      if component.None? {
        break;
      }
      assert it.index == Offset(path, k + 1) by { StepFrom(path, k); }
      var step := Enter(current, component.value);
      assert Resolve(current, cs[k..]) ==
        if step.Found? then Resolve(step.dir, cs[k + 1..]) else step by {
        ResolveFrom(current, cs, k);
      }
      if !step.Found? {
        return step;
      }
      current := step.dir;
      k := k + 1;
    }
    assert cs[k..] == [];
    return Found(current);
  }

  // ---------------------------------------------------------------------
  // Properties
  // ---------------------------------------------------------------------

  /** The walk from the `k`-th component is one step and then the rest. */
  lemma ResolveFrom(d: Directory, cs: seq<string>, k: nat)
    requires k < |cs|
    ensures Resolve(d, cs[k..]) ==
      if StepInto(d, cs[k]).Found? then Resolve(StepInto(d, cs[k]).dir, cs[k + 1..]) else StepInto(d, cs[k])
  {
    assert cs[k..][0] == cs[k] && cs[k..][1..] == cs[k + 1..];
  }

  /** Where the walk has reached `x` after `k` components and the first entry
    * named by the next component is a file, the fetch finds nothing. */
  lemma FetchStopsAtFile(tree: Directory, path: RelativePath, options: DirectoryFetchOptions,
                         k: nat, x: Directory, i: nat)
    requires !IsEmpty(path) && k < |ComponentsOf(path)|
    requires Resolve(tree, ComponentsOf(path)[..k]) == Found(x)
    requires FindEntry(x.entries, ComponentsOf(path)[k]) == Some(i) && x.entries[i].info.File?
    ensures Fetch(tree, path, options) == NotFound
  {
    var cs := ComponentsOf(path);
    assert cs == cs[..k] + cs[k..];
    ResolveAppend(tree, cs[..k], cs[k..]);
    ResolveFrom(x, cs, k);
  }

  /** Where no entry of `x` has the next component's name, the fetch finds
    * nothing. */
  lemma FetchStopsAtMissingName(tree: Directory, path: RelativePath, options: DirectoryFetchOptions,
                                k: nat, x: Directory)
    requires !IsEmpty(path) && k < |ComponentsOf(path)|
    requires Resolve(tree, ComponentsOf(path)[..k]) == Found(x)
    requires forall j :: 0 <= j < |x.entries| ==> x.entries[j].name != ComponentsOf(path)[k]
    ensures Fetch(tree, path, options) == NotFound
  {
    var cs := ComponentsOf(path);
    assert cs == cs[..k] + cs[k..];
    ResolveAppend(tree, cs[..k], cs[k..]);
    ResolveFrom(x, cs, k);
  }

  /** Where the first entry of `x` named by the next component is a loaded
    * directory `y`, the walk over one more component reaches `y`. */
  lemma ResolveDescends(d: Directory, cs: seq<string>, k: nat, x: Directory, i: nat, y: Directory)
    requires k < |cs| && Resolve(d, cs[..k]) == Found(x)
    requires FindEntry(x.entries, cs[k]) == Some(i) && x.entries[i].info == Dir(Some(y))
    ensures Resolve(d, cs[..k + 1]) == Found(y)
  {
    assert cs[..k + 1] == cs[..k] + [cs[k]];
    ResolveAppend(d, cs[..k], [cs[k]]);
    ResolveCons(x, cs[k], []);
    assert [cs[k]] + [] == [cs[k]];
  }

  /** Walking `a` and then `b` is walking `a + b`. */
  lemma {:induction false} ResolveAppend(d: Directory, a: seq<string>, b: seq<string>)
    ensures Resolve(d, a + b) ==
      match Resolve(d, a)
      case Found(x) => Resolve(x, b)
      case other => other
    decreases |a|
  {
    if a == [] {
      assert a + b == b;
    } else {
      assert (a + b)[0] == a[0] && (a + b)[1..] == a[1..] + b;
      match StepInto(d, a[0])
      case Found(sub) =>
        ResolveAppend(sub, a[1..], b);
      case NotFound =>
      case UnloadedDirectory =>
    }
  }

  /** In a tree without unloaded directories the walk never meets one. */
  lemma {:induction false} ResolveFullyLoaded(d: Directory, cs: seq<string>)
    requires FullyLoaded(d)
    ensures Resolve(d, cs) != UnloadedDirectory
    ensures Resolve(d, cs).Found? ==> FullyLoaded(Resolve(d, cs).dir)
    decreases |cs|
  {
    if cs != [] {
      match FindEntry(d.entries, cs[0])
      case None =>
      case Some(i) =>
        assert EntryFullyLoaded(d.entries[i]);
        if IsLoadedDir(d.entries[i]) {
          ResolveFullyLoaded(d.entries[i].info.dir.value, cs[1..]);
        }
    }
  }

  /** A fully loaded mock tree never makes `fetch_directory` panic. */
  lemma FetchNeverPanics(tree: Directory, path: RelativePath, options: DirectoryFetchOptions)
    requires FullyLoaded(tree)
    ensures Fetch(tree, path, options) != UnloadedDirectory
  {
    if !IsEmpty(path) {
      ResolveFullyLoaded(tree, ComponentsOf(path));
    }
  }

  /** In a tree whose paths are consistent, the walk over `cs` from a
    * directory at `Join(pre)` reaches the directory at `Join(pre + cs)`. */
  lemma {:induction false} ResolvePath(d: Directory, pre: seq<string>, cs: seq<string>)
    requires PathsConsistent(d) && d.relativePath == Join(pre)
    requires pre + cs == [] || (pre + cs)[0] != ""
    requires Resolve(d, cs).Found?
    ensures Resolve(d, cs).dir.relativePath == Join(pre + cs)
    decreases |cs|
  {
    if cs == [] {
      assert pre + cs == pre;
    } else {
      var c := cs[0];
      match FindEntry(d.entries, c)
      case Some(i) =>
        var e := d.entries[i];
        assert EntryPathsConsistent(d.relativePath, e);
        var sub := e.info.dir.value;
        assert sub.relativePath == Join(pre + [c]) by {
          if pre == [] {
            assert [] + [c] == [c];
          } else {
            assert pre[0] == (pre + cs)[0];
            JoinNonEmpty(pre);
            JoinSnoc(pre, c);
          }
        }
        assert (pre + [c]) + cs[1..] == pre + cs;
        ResolvePath(sub, pre + [c], cs[1..]);
    }
  }

  /** In a consistent tree rooted at the empty path, the directory found for a
    * path carries that path, with a depth limit or without. */
  lemma FetchedPath(tree: Directory, path: RelativePath, options: DirectoryFetchOptions)
    requires PathsConsistent(tree) && tree.relativePath == ""
    requires Fetch(tree, path, options).Found?
    ensures Fetch(tree, path, options).dir.relativePath == path
  {
    if !IsEmpty(path) {
      var cs := ComponentsOf(path);
      FirstComponentNonEmpty(path);
      assert [] + cs == cs;
      ResolvePath(tree, [], cs);
      JoinComponents(path);
    }
  }

  /** With a depth limit, a non-empty path finds the same directory as
    * without, with the same shape, loaded only down to the limit. */
  lemma FetchWithDepthLimit(tree: Directory, path: RelativePath, limit: U32)
    requires !IsEmpty(path)
    ensures var limited := Fetch(tree, path, DirectoryFetchOptions(Some(limit)));
      var full := Fetch(tree, path, DirectoryFetchOptions(None));
      && limited.Found? == full.Found?
      && (!full.Found? ==> limited == full)
      && (full.Found? ==> SameShape(full.dir, limited.dir))
      && (full.Found? ==> forall route ::
            LoadedAt(limited.dir, route) <==> LoadedAt(full.dir, route) && |route| <= limit)
  {
    var full := Fetch(tree, path, DirectoryFetchOptions(None));
    if full.Found? {
      PrunedSameShape(full.dir, limit);
      forall route
        ensures LoadedAt(Pruned(full.dir, limit), route) <==> LoadedAt(full.dir, route) && |route| <= limit
      {
        PrunedLoadedAt(full.dir, limit, route);
      }
    }
  }

  // ---------------------------------------------------------------------
  // The tree of the module's own test
  // ---------------------------------------------------------------------

  /** The shape of the test tree: the root holds only `subdir`, which holds
    * only `nested`, which holds only the file `file.txt`. */
  predicate IsTestTree(root: Directory, subdir: Directory, nested: Directory) {
    && root.entries == [DirectoryEntry("subdir", Dir(Some(subdir)))]
    && subdir.entries == [DirectoryEntry("nested", Dir(Some(nested)))]
    && |nested.entries| == 1 && nested.entries[0].name == "file.txt" && nested.entries[0].info.File?
  }

  const FileTxt := DirectoryEntry("file.txt", File(FileMetadata(0, 0), DefaultChangeState, DefaultConflictState))
  const NestedPath: RelativePath := "subdir/nested"
  const Nested: Directory := PushEntry(NewDirectory(NestedPath, []), FileTxt)
  const Subdir: Directory := PushEntry(NewDirectory("subdir", []), DirectoryEntry("nested", Dir(Some(Nested))))
  const Root: Directory := PushEntry(NewDirectory("", []), DirectoryEntry("subdir", Dir(Some(Subdir))))
  const NoLimit := DirectoryFetchOptions(None)
  const MissingPath: RelativePath := "missing/path"
  /** `"subdir/nested/file.txt"`. */
  const FilePath: RelativePath := "subdir" + "/" + ("nested" + "/" + "file.txt")

  /** The test builds its tree with `new` and `push_entry`, into that shape. */
  lemma TestTreeShape()
    ensures IsTestTree(Root, Subdir, Nested)
    ensures Root.relativePath == "" && Subdir.relativePath == "subdir" && Nested.relativePath == NestedPath
  {
  }

  lemma ResolveCons(d: Directory, c: string, rest: seq<string>)
    ensures Resolve(d, [c] + rest) ==
      if StepInto(d, c).Found? then Resolve(StepInto(d, c).dir, rest) else StepInto(d, c)
  {
    assert ([c] + rest)[0] == c && ([c] + rest)[1..] == rest;
  }

  lemma ComponentsOfMissingPath()
    ensures ComponentsOf(MissingPath) == ["missing", "path"]
  {
    ComponentsOfTwo("missing", "path");
    assert "missing" + "/" + "path" == MissingPath;
  }

  lemma ComponentsOfSubdir()
    ensures !IsEmpty("subdir") && ComponentsOf("subdir") == ["subdir"]
  {
    ComponentsOfSingle("subdir");
  }

  lemma ComponentsOfNestedPath()
    ensures ComponentsOf(NestedPath) == ["subdir", "nested"]
  {
    ComponentsOfTwo("subdir", "nested");
    assert "subdir" + "/" + "nested" == NestedPath;
  }

  lemma ComponentsOfFilePath()
    ensures ComponentsOf(FilePath) == ["subdir", "nested", "file.txt"]
  {
    var tail := "nested" + "/" + "file.txt";
    assert ComponentsOf(tail) == ["nested", "file.txt"] by {
      assert NoSeparator("file.txt");
      ComponentsOfTwo("nested", "file.txt");
    }
    assert ComponentsOf(FilePath) == ["subdir"] + ComponentsOf(tail) by {
      ComponentsOfCons("subdir", tail);
    }
  }

  /** A first component with no entry of that name: nothing is found. */
  lemma FetchMissingExample(root: Directory, subdir: Directory, nested: Directory)
    requires IsTestTree(root, subdir, nested)
    ensures Fetch(root, MissingPath, NoLimit) == NotFound
  {
    var cs := ["missing", "path"];
    assert cs == ["missing"] + ["path"];
    ComponentsOfMissingPath();
    assert StepInto(root, "missing") == NotFound;
    ResolveCons(root, "missing", ["path"]);
  }

  /** One level down: the sub-directory. */
  lemma FetchSubdirExample(root: Directory, subdir: Directory, nested: Directory)
    requires IsTestTree(root, subdir, nested)
    ensures Fetch(root, "subdir", NoLimit) == Found(subdir)
  {
    var cs := ["subdir"];
    assert cs == ["subdir"] + [];
    ComponentsOfSubdir();
    assert StepInto(root, "subdir") == Found(subdir);
    ResolveCons(root, "subdir", []);
  }

  /** Two levels down: the nested directory. */
  lemma FetchNestedExample(root: Directory, subdir: Directory, nested: Directory)
    requires IsTestTree(root, subdir, nested)
    ensures Fetch(root, NestedPath, NoLimit) == Found(nested)
  {
    var cs, tail := ["subdir", "nested"], ["nested"];
    assert cs == ["subdir"] + tail && tail == ["nested"] + [];
    ComponentsOfNestedPath();
    assert StepInto(root, "subdir") == Found(subdir);
    assert StepInto(subdir, "nested") == Found(nested);
    ResolveCons(root, "subdir", tail);
    ResolveCons(subdir, "nested", []);
  }

  /** A file in the way: nothing is found. */
  lemma FetchFileExample(root: Directory, subdir: Directory, nested: Directory)
    requires IsTestTree(root, subdir, nested)
    ensures Fetch(root, FilePath, NoLimit) == NotFound
  {
    var cs, tail, last := ["subdir", "nested", "file.txt"], ["nested", "file.txt"], ["file.txt"];
    assert cs == ["subdir"] + tail && tail == ["nested"] + last && last == ["file.txt"] + [];
    ComponentsOfFilePath();
    assert StepInto(root, "subdir") == Found(subdir);
    assert StepInto(subdir, "nested") == Found(nested);
    assert StepInto(nested, "file.txt") == NotFound;
    ResolveCons(root, "subdir", tail);
    ResolveCons(subdir, "nested", last);
    ResolveCons(nested, "file.txt", []);
  }

  /** The empty path returns the whole tree even under a depth limit of 0,
    * with its sub-directory still loaded, where pruning to 0 would have
    * unloaded it. */
  lemma FetchRootIgnoresDepthLimit(root: Directory, subdir: Directory, nested: Directory)
    requires IsTestTree(root, subdir, nested)
    ensures Fetch(root, "", DirectoryFetchOptions(Some(0))) == Found(root)
    ensures LoadedAt(root, [0]) && !LoadedAt(Pruned(root, 0), [0])
  {
    assert [0][1..] == [];
    PrunedLoadedAt(root, 0, [0]);
  }
}
