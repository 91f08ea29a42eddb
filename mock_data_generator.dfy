/**
 * The mock data generator (src/tools/mock_data_generator.rs): a stack of
 * directories under construction, and the loop that turns a depth-first walk,
 * sorted by file name, into a `Directory` tree.
 *
 * The walk itself is a parameter: a sequence of `WalkEntry` values in the
 * order the walker yields them, the root excluded.
 */
module MockDataGenerator {
  import opened Wrappers
  import opened Common
  import opened CommonOrder
  import opened Model

  /** One item of the walk: its path relative to the walked root, whether it is
    * a directory, and the metadata of a file. */
  datatype WalkEntry = WalkEntry(relativePath: RelativePath, isDir: bool, metadata: FileMetadata)

  // ---------------------------------------------------------------------
  // The stack as a value
  // ---------------------------------------------------------------------

  function Top(st: seq<Directory>): Directory
    requires st != []
  {
    st[|st| - 1]
  }

  /** Every frame above the root has a non-empty path, so it has a file name. */
  predicate PathsAboveRootNonEmpty(st: seq<Directory>) {
    forall i :: 1 <= i < |st| ==> st[i].relativePath != ""
  }

  /** The stack after `pop_tail`: the top frame is removed and, when a frame is
    * left below it, attached to that frame as a loaded sub-directory named by
    * its file name. */
  function PoppedStack(st: seq<Directory>): (r: seq<Directory>)
    requires |st| >= 2 ==> Top(st).relativePath != ""
    ensures |r| == if st == [] then 0 else |st| - 1
  {
    if |st| <= 1 then []
    else
      var n := |st|;
      var last := st[n - 1];
      st[..n - 2] + [PushEntry(st[n - 2], DirectoryEntry(FileName(last.relativePath).value, Dir(Some(last))))]
  }

  /** What `finalize` returns: the stack popped down to its root frame. */
  function Collapse(st: seq<Directory>): (r: Directory)
    requires st != [] && PathsAboveRootNonEmpty(st)
    ensures r.relativePath == st[0].relativePath
    decreases |st|
  {
    if |st| == 1 then st[0]
    else
      PopKeepsPathsAboveRoot(st);
      Collapse(PoppedStack(st))
  }

  /** The files of all frames, bottom frame first. */
  function StackFiles(st: seq<Directory>): seq<FileRecord> {
    if st == [] then [] else StackFiles(st[..|st| - 1]) + Files(st[|st| - 1])
  }

  /** Each frame above the root is the child, by file name, of the frame below. */
  predicate Chained(st: seq<Directory>) {
    forall i :: 1 <= i < |st| ==>
      && st[i].relativePath != ""
      && st[i].relativePath == ChildPath(st[i - 1].relativePath, FileName(st[i].relativePath).value)
  }

  predicate FramesWellBuilt(st: seq<Directory>) {
    forall i {:trigger WellBuilt(st[i])} :: 0 <= i < |st| ==> WellBuilt(st[i])
  }

  /** The lower frames are untouched by `pop_tail`; the new top frame is the old
    * one below the top, with the old top attached. */
  lemma PoppedStackIs(st: seq<Directory>)
    requires |st| >= 2 && Top(st).relativePath != ""
    ensures var n := |st|;
      && PoppedStack(st)[..n - 2] == st[..n - 2]
      && PoppedStack(st)[n - 2] == PushEntry(st[n - 2], DirectoryEntry(FileName(st[n - 1].relativePath).value, Dir(Some(st[n - 1]))))
  {
  }

  /** `pop_tail` keeps every frame's path; in particular the frames above the
    * root keep non-empty paths. */
  lemma PopKeepsPathsAboveRoot(st: seq<Directory>)
    requires |st| >= 2 && PathsAboveRootNonEmpty(st)
    ensures forall i :: 0 <= i < |st| - 1 ==> PoppedStack(st)[i].relativePath == st[i].relativePath
    ensures PathsAboveRootNonEmpty(PoppedStack(st))
  {
    var n := |st|;
    var r := PoppedStack(st);
    PoppedStackIs(st);
    forall i | 0 <= i < n - 1
      ensures r[i].relativePath == st[i].relativePath
    {
      if i < n - 2 {
        assert r[i] == r[..n - 2][i] && st[i] == st[..n - 2][i];
      }
    }
  }

  lemma PopKeepsChained(st: seq<Directory>)
    requires |st| >= 2 && Chained(st)
    ensures Chained(PoppedStack(st))
  {
    var r := PoppedStack(st);
    forall i | 1 <= i < |r|
      ensures r[i].relativePath != ""
      ensures r[i].relativePath == ChildPath(r[i - 1].relativePath, FileName(r[i].relativePath).value)
    {
      assert r[i].relativePath == st[i].relativePath;
      assert r[i - 1].relativePath == st[i - 1].relativePath;
    }
  }

  lemma PopKeepsWellBuilt(st: seq<Directory>)
    requires |st| >= 2 && Chained(st) && FramesWellBuilt(st)
    ensures FramesWellBuilt(PoppedStack(st))
    ensures Files(PoppedStack(st)[|st| - 2]) == Files(st[|st| - 2]) + Files(st[|st| - 1])
  {
    var n := |st|;
    var last := st[n - 1];
    var e := DirectoryEntry(FileName(last.relativePath).value, Dir(Some(last)));
    var top := PushEntry(st[n - 2], e);
    assert WellBuilt(top) && Files(top) == Files(st[n - 2]) + Files(last) by {
      assert WellBuilt(st[n - 2]) && WellBuilt(last);
      assert last.relativePath == ChildPath(st[n - 2].relativePath, e.name);
      PushEntryKeepsWellBuilt(st[n - 2], e);
      assert EntryFiles(st[n - 2].relativePath, e) == Files(last);
    }
    PoppedStackIs(st);
    var r := PoppedStack(st);
    assert r[n - 2] == top;
    SplitLast(r);
    FramesWellBuiltPrefix(st, n - 2);
    FramesWellBuiltSnoc(st[..n - 2], top);
  }

  lemma FramesWellBuiltPrefix(st: seq<Directory>, k: nat)
    requires k <= |st| && FramesWellBuilt(st)
    ensures FramesWellBuilt(st[..k])
  {
    forall i | 0 <= i < k
      ensures WellBuilt(st[..k][i])
    {
      assert st[..k][i] == st[i];
    }
  }

  lemma FramesWellBuiltSnoc(lower: seq<Directory>, top: Directory)
    requires FramesWellBuilt(lower) && WellBuilt(top)
    ensures FramesWellBuilt(lower + [top])
  {
    forall i | 0 <= i < |lower| + 1
      ensures WellBuilt((lower + [top])[i])
    {
      if i < |lower| {
        assert (lower + [top])[i] == lower[i];
      }
    }
  }

  /** Replacing the last two frames by one that holds both their files keeps
    * the file list. */
  lemma StackFilesMerge(lower: seq<Directory>, a: Directory, b: Directory, c: Directory)
    requires Files(c) == Files(a) + Files(b)
    ensures StackFiles(lower + [c]) == StackFiles(lower + [a] + [b])
  {
    StackFilesSnoc(lower, c);
    StackFilesSnoc(lower, a);
    StackFilesSnoc(lower + [a], b);
    ConcatAssociative(StackFiles(lower), Files(a), Files(b));
  }

  lemma ConcatAssociative(x: seq<FileRecord>, y: seq<FileRecord>, z: seq<FileRecord>)
    ensures (x + y) + z == x + (y + z)
  {
  }

  lemma StackFilesSnoc(st: seq<Directory>, d: Directory)
    ensures StackFiles(st + [d]) == StackFiles(st) + Files(d)
  {
    assert (st + [d])[..|st|] == st;
  }

  lemma SplitLast(st: seq<Directory>)
    requires st != []
    ensures st == st[..|st| - 1] + [st[|st| - 1]]
  {
  }

  lemma SplitLastTwo(st: seq<Directory>)
    requires |st| >= 2
    ensures st == st[..|st| - 2] + [st[|st| - 2]] + [st[|st| - 1]]
    ensures st == st[..|st| - 2] + [st[|st| - 2], st[|st| - 1]]
  {
  }

  /** `pop_tail` keeps the frames well built and chained, and moves the top
    * frame's files into the frame below without losing or reordering any. */
  lemma PopKeepsFrames(st: seq<Directory>)
    requires |st| >= 2 && Chained(st) && FramesWellBuilt(st)
    ensures Chained(PoppedStack(st)) && FramesWellBuilt(PoppedStack(st))
    ensures StackFiles(PoppedStack(st)) == StackFiles(st)
  {
    var n := |st|;
    var lower := st[..n - 2];
    SplitLastTwo(st);
    PoppedStackIs(st);
    var r := PoppedStack(st);
    SplitLast(r);
    PopKeepsChained(st);
    PopKeepsWellBuilt(st);
    StackFilesMerge(lower, st[n - 2], st[n - 1], r[n - 2]);
  }

  /** `finalize` returns a well-built tree rooted at the bottom frame's path,
    * holding exactly the files of the whole stack, in order. */
  lemma {:induction false} CollapseKeepsFrames(st: seq<Directory>)
    requires st != [] && Chained(st) && FramesWellBuilt(st)
    ensures WellBuilt(Collapse(st))
    ensures Collapse(st).relativePath == st[0].relativePath
    ensures Files(Collapse(st)) == StackFiles(st)
    decreases |st|
  {
    if |st| == 1 {
      assert StackFiles(st) == Files(st[0]) by {
        assert st[..0] == [];
      }
    } else {
      var r := PoppedStack(st);
      PopKeepsFrames(st);
      CollapseKeepsFrames(r);
      assert Collapse(st) == Collapse(r);
    }
  }

  /** The directories of all frames, each counted as often as it occurs. */
  function StackDirs(st: seq<Directory>): multiset<string> {
    if st == [] then multiset{} else StackDirs(st[..|st| - 1]) + Dirs(st[|st| - 1])
  }

  lemma StackDirsSnoc(st: seq<Directory>, d: Directory)
    ensures StackDirs(st + [d]) == StackDirs(st) + Dirs(d)
  {
    assert (st + [d])[..|st|] == st;
  }

  /** `pop_tail` moves the top frame below the next one: no directory is
    * gained or lost. */
  lemma PopKeepsDirs(st: seq<Directory>)
    requires |st| >= 2 && Top(st).relativePath != ""
    ensures StackDirs(PoppedStack(st)) == StackDirs(st)
  {
    var n := |st|;
    var last := st[n - 1];
    PushEntryDirs(st[n - 2], DirectoryEntry(FileName(last.relativePath).value, Dir(Some(last))));
    PoppedStackIs(st);
    var r := PoppedStack(st);
    SplitLast(r);
    SplitLastTwo(st);
    StackDirsMerge(st[..n - 2], st[n - 2], last, r[n - 2]);
  }

  /** Replacing the last two frames by one that holds both their directories
    * keeps the directories. */
  lemma StackDirsMerge(lower: seq<Directory>, a: Directory, b: Directory, c: Directory)
    requires Dirs(c) == Dirs(a) + Dirs(b)
    ensures StackDirs(lower + [c]) == StackDirs(lower + [a] + [b])
  {
    calc {
      StackDirs(lower + [c]);
    == { StackDirsSnoc(lower, c); }
      StackDirs(lower) + (Dirs(a) + Dirs(b));
    == { MultisetAssociative(StackDirs(lower), Dirs(a), Dirs(b)); }
      (StackDirs(lower) + Dirs(a)) + Dirs(b);
    == { StackDirsSnoc(lower, a); }
      StackDirs(lower + [a]) + Dirs(b);
    == { StackDirsSnoc(lower + [a], b); }
      StackDirs(lower + [a] + [b]);
    }
  }

  lemma MultisetAssociative(x: multiset<string>, y: multiset<string>, z: multiset<string>)
    ensures (x + y) + z == x + (y + z)
  {
  }

  /** The tree `finalize` returns holds exactly the directories of the stack. */
  lemma {:induction false} CollapseDirs(st: seq<Directory>)
    requires st != [] && PathsAboveRootNonEmpty(st)
    ensures Dirs(Collapse(st)) == StackDirs(st)
    decreases |st|
  {
    if |st| == 1 {
      assert st[..0] == [];
    } else {
      PopKeepsPathsAboveRoot(st);
      PopKeepsDirs(st);
      CollapseDirs(PoppedStack(st));
    }
  }

  /** `push_directory` adds one directory, the new empty frame. */
  lemma PushedDirectoryDirs(st: seq<Directory>, p: RelativePath)
    ensures StackDirs(st + [NewDirectory(p, [])]) == StackDirs(st) + multiset{p}
  {
    StackDirsSnoc(st, NewDirectory(p, []));
  }

  // ---------------------------------------------------------------------
  // Frames along the components of a path
  // ---------------------------------------------------------------------

  /** Non-empty components without a separator. */
  predicate NonEmptyParts(cs: seq<string>) {
    NoSeparatorIn(cs) && forall i :: 0 <= i < |cs| ==> cs[i] != ""
  }

  /** The frames are the root and the directories along `cs`, one per prefix. */
  predicate FramesAlong(st: seq<Directory>, cs: seq<string>) {
    && |st| == |cs| + 1
    && forall i {:trigger FramePath(st, i)} :: 0 <= i < |st| ==> FramePath(st, i) == Join(cs[..i])
  }

  function FramePath(st: seq<Directory>, i: nat): RelativePath
    requires i < |st|
  {
    st[i].relativePath
  }

  /** The top frame is the directory of all of `cs`. */
  lemma TopFrame(st: seq<Directory>, cs: seq<string>)
    requires FramesAlong(st, cs)
    ensures Top(st).relativePath == Join(cs)
  {
    assert FramePath(st, |cs|) == Join(cs[..|cs|]);
    assert cs[..|cs|] == cs;
  }

  lemma TopFrames(st: seq<Directory>)
    requires st != []
    ensures forall cs :: FramesAlong(st, cs) ==> Top(st).relativePath == Join(cs)
  {
    forall cs | FramesAlong(st, cs)
      ensures Top(st).relativePath == Join(cs)
    {
      TopFrame(st, cs);
    }
  }

  /** The invariant the builder keeps between entries. */
  predicate BuilderStack(st: seq<Directory>, cs: seq<string>) {
    FramesAlong(st, cs) && NonEmptyParts(cs) && FramesWellBuilt(st)
  }

  lemma JoinPrefixSnoc(cs: seq<string>, k: nat)
    requires 0 < k < |cs|
    ensures Join(cs[..k + 1]) == Join(cs[..k]) + "/" + cs[k]
  {
    assert cs[..k + 1][..k] == cs[..k];
  }

  /** Each further non-empty component makes the joined prefix strictly longer. */
  lemma JoinPrefixGrows(cs: seq<string>, k: nat)
    requires NonEmptyParts(cs) && k < |cs|
    ensures |Join(cs[..k])| < |Join(cs[..k + 1])|
  {
    if k > 0 {
      JoinPrefixSnoc(cs, k);
    } else {
      assert cs[..1] == [cs[0]];
    }
  }

  lemma {:induction false} JoinPrefixLonger(cs: seq<string>, i: nat, j: nat)
    requires NonEmptyParts(cs) && i < j <= |cs|
    ensures |Join(cs[..i])| < |Join(cs[..j])|
    decreases j - i
  {
    JoinPrefixGrows(cs, i);
    if i + 1 < j {
      JoinPrefixLonger(cs, i + 1, j);
    }
  }

  /** Different prefixes of non-empty components join to different strings. */
  lemma JoinPrefixInjective(cs: seq<string>, i: nat, j: nat)
    requires NonEmptyParts(cs) && i <= |cs| && j <= |cs|
    requires Join(cs[..i]) == Join(cs[..j])
    ensures i == j
  {
    if i < j {
      JoinPrefixLonger(cs, i, j);
    } else if j < i {
      JoinPrefixLonger(cs, j, i);
    }
  }

  /** The joined non-empty prefix is the child of the next shorter one. */
  lemma JoinPrefixIsChild(cs: seq<string>, k: nat)
    requires NonEmptyParts(cs) && 0 < k <= |cs|
    ensures Join(cs[..k]) == ChildPath(Join(cs[..k - 1]), cs[k - 1])
  {
    if k == 1 {
      assert cs[..1] == [cs[0]];
    } else {
      JoinPrefixLonger(cs, 0, k - 1);
      JoinPrefixSnoc(cs, k - 1);
    }
  }

  /** Frames along non-empty components are chained. */
  lemma FramesAlongChained(st: seq<Directory>, cs: seq<string>)
    requires FramesAlong(st, cs) && NonEmptyParts(cs)
    ensures Chained(st)
  {
    forall i | 1 <= i < |st|
      ensures st[i].relativePath != ""
      ensures st[i].relativePath == ChildPath(st[i - 1].relativePath, FileName(st[i].relativePath).value)
    {
      assert FramePath(st, i) == Join(cs[..i]);
      assert FramePath(st, i - 1) == Join(cs[..i - 1]);
      JoinPrefixIsNamedChild(cs, i, st[i].relativePath);
    }
  }

  /** The join of the first `i` non-empty components is a non-empty path whose
    * file name is the `i`-th component, the child of the join of the first
    * `i - 1`. */
  lemma JoinPrefixIsNamedChild(cs: seq<string>, i: nat, p: RelativePath)
    requires NonEmptyParts(cs) && 0 < i <= |cs| && p == Join(cs[..i])
    ensures p != "" && FileName(p) == Some(cs[i - 1])
    ensures p == ChildPath(Join(cs[..i - 1]), cs[i - 1])
  {
    JoinPrefixLonger(cs, 0, i);
    var prefix := cs[..i];
    assert NoSeparatorIn(prefix) by {
      assert forall j :: 0 <= j < i ==> prefix[j] == cs[j];
    }
    ComponentsOfJoin(prefix);
    FileNameIsLastComponent(p);
    JoinPrefixIsChild(cs, i);
  }

  /** `pop_tail` on frames along `cs` leaves the frames along all but the last
    * component. */
  lemma PopAlong(st: seq<Directory>, cs: seq<string>)
    requires BuilderStack(st, cs) && cs != []
    ensures Top(st).relativePath != ""
    ensures BuilderStack(PoppedStack(st), cs[..|cs| - 1])
    ensures StackFiles(PoppedStack(st)) == StackFiles(st)
  {
    assert Chained(st) by {
      FramesAlongChained(st, cs);
    }
    PopKeepsFrames(st);
    PopFramesAlong(st, cs);
    NonEmptyPartsPrefix(cs, |cs| - 1);
  }

  lemma NonEmptyPartsPrefix(cs: seq<string>, k: nat)
    requires NonEmptyParts(cs) && k <= |cs|
    ensures NonEmptyParts(cs[..k])
  {
    assert forall i :: 0 <= i < k ==> cs[..k][i] == cs[i];
  }

  lemma PopFramesAlong(st: seq<Directory>, cs: seq<string>)
    requires FramesAlong(st, cs) && cs != [] && Top(st).relativePath != ""
    ensures FramesAlong(PoppedStack(st), cs[..|cs| - 1])
  {
    var r := PoppedStack(st);
    var shorter := cs[..|cs| - 1];
    forall i | 0 <= i < |r|
      ensures FramePath(r, i) == Join(shorter[..i])
    {
      assert shorter[..i] == cs[..i];
      assert FramePath(st, i) == Join(cs[..i]);
    }
  }

  /** Pushing the directory of the next prefix extends the frames by one
    * component. */
  lemma PushAlong(st: seq<Directory>, cs: seq<string>, k: nat, p: RelativePath)
    requires k < |cs| && BuilderStack(st, cs[..k]) && NonEmptyParts(cs)
    requires p == Join(cs[..k + 1])
    ensures BuilderStack(st + [NewDirectory(p, [])], cs[..k + 1])
    ensures StackFiles(st + [NewDirectory(p, [])]) == StackFiles(st)
  {
    var r := st + [NewDirectory(p, [])];
    forall i | 0 <= i < |r|
      ensures FramePath(r, i) == Join(cs[..k + 1][..i])
    {
      if i < |st| {
        assert cs[..k + 1][..i] == cs[..k][..i];
        assert FramePath(st, i) == Join(cs[..k][..i]);
      } else {
        assert cs[..k + 1][..i] == cs[..k + 1];
      }
    }
    var empty := NewDirectory(p, []);
    assert StatesUnion([]) == NoStates;
    assert WellBuilt(empty);
    StackFilesSnoc(st, empty);
  }

  /** The stack `DirStack::new` starts with: the root frame alone, no files. */
  lemma InitialStack()
    ensures BuilderStack([NewDirectory("", [])], [])
    ensures StackFiles([NewDirectory("", [])]) == []
    ensures StackDirs([NewDirectory("", [])]) == multiset{""}
  {
    var root := NewDirectory("", []);
    assert StatesUnion([]) == NoStates;
    assert WellBuilt(root);
    assert [root][..0] == [];
    assert FramePath([root], 0) == Join([][..0]);
  }

  /** `push_file` adds one file, named `name`, below the top frame. */
  function PushedFile(st: seq<Directory>, name: string, metadata: FileMetadata): (r: seq<Directory>)
    requires st != []
    ensures |r| == |st| && r[..|st| - 1] == st[..|st| - 1]
    ensures Top(r).relativePath == Top(st).relativePath
    ensures Top(r).entries == Top(st).entries + [DirectoryEntry(name, File(metadata, DefaultChangeState, DefaultConflictState))]
  {
    st[..|st| - 1] + [PushEntry(Top(st), DirectoryEntry(name, File(metadata, DefaultChangeState, DefaultConflictState)))]
  }

  /** `push_file` adds no directory. */
  lemma PushedFileDirs(st: seq<Directory>, name: string, metadata: FileMetadata)
    requires st != []
    ensures StackDirs(PushedFile(st, name, metadata)) == StackDirs(st)
  {
    PushEntryDirs(Top(st), DirectoryEntry(name, File(metadata, DefaultChangeState, DefaultConflictState)));
    var r := PushedFile(st, name, metadata);
    var lower := st[..|st| - 1];
    assert st == lower + [Top(st)];
    assert r == lower + [r[|r| - 1]];
    StackDirsSnoc(lower, Top(st));
    StackDirsSnoc(lower, r[|r| - 1]);
  }

  lemma PushFileAlong(st: seq<Directory>, cs: seq<string>, name: string, metadata: FileMetadata)
    requires BuilderStack(st, cs)
    ensures BuilderStack(PushedFile(st, name, metadata), cs)
    ensures StackFiles(PushedFile(st, name, metadata)) ==
      StackFiles(st) + [FileRecord(ChildPath(Top(st).relativePath, name), metadata, DefaultChangeState, DefaultConflictState)]
  {
    var e := DirectoryEntry(name, File(metadata, DefaultChangeState, DefaultConflictState));
    PushEntryKeepsWellBuilt(Top(st), e);
    var r := PushedFile(st, name, metadata);
    var lower := st[..|st| - 1];
    assert st == lower + [Top(st)];
    assert r == lower + [r[|r| - 1]];
    StackFilesSnoc(lower, Top(st));
    StackFilesSnoc(lower, r[|r| - 1]);
    ConcatAssociative(StackFiles(lower), Files(Top(st)),
      [FileRecord(ChildPath(Top(st).relativePath, name), metadata, DefaultChangeState, DefaultConflictState)]);
    PushedFileAlong(st, cs, name, metadata);
  }

  lemma PushedFileAlong(st: seq<Directory>, cs: seq<string>, name: string, metadata: FileMetadata)
    requires FramesAlong(st, cs) && FramesWellBuilt(st[..|st| - 1])
    requires WellBuilt(PushedFile(st, name, metadata)[|st| - 1])
    ensures FramesAlong(PushedFile(st, name, metadata), cs)
    ensures FramesWellBuilt(PushedFile(st, name, metadata))
  {
    var r := PushedFile(st, name, metadata);
    forall i | 0 <= i < |r|
      ensures FramePath(r, i) == Join(cs[..i])
      ensures WellBuilt(r[i])
    {
      assert FramePath(st, i) == Join(cs[..i]);
      if i < |st| - 1 {
        assert r[i] == st[..|st| - 1][i];
      }
    }
  }

  /** A path is the child of the join of its parent components. */
  lemma ParentChildPath(p: RelativePath)
    requires p != "" && NonEmptyParts(ComponentsOf(p))
    ensures var cs := ComponentsOf(p);
      ChildPath(Join(cs[..|cs| - 1]), cs[|cs| - 1]) == p
  {
    var cs := ComponentsOf(p);
    JoinComponents(p);
    assert cs[..|cs|] == cs;
    JoinPrefixIsChild(cs, |cs|);
  }

  /** The joined prefix of a path's components is itself a valid relative path,
    * as the Rust code's `expect` on `RelativePath::new` assumes. */
  lemma JoinPrefixIsRelativePath(p: RelativePath, k: nat)
    requires NonEmptyParts(ComponentsOf(p)) && k <= |ComponentsOf(p)|
    ensures IsRelativePath(Join(ComponentsOf(p)[..k]))
  {
    var cs := ComponentsOf(p);
    var q := Join(cs[..k]);
    assert NoBackslash(q) && (|q| > 0 ==> q[0] != '/') by {
      JoinPrefixIsPrefix(p, k);
      assert forall i :: 0 <= i < |q| ==> q[i] == p[..|q|][i];
    }
    if k > 0 {
      var c := cs[k - 1];
      assert c != "" && NoSeparator(c);
      assert q[|q| - 1] == c[|c| - 1] by {
        if k == 1 {
          assert cs[..1] == [c];
        } else {
          JoinPrefixSnoc(cs, k - 1);
        }
      }
    }
  }

  // ---------------------------------------------------------------------
  // The input
  // ---------------------------------------------------------------------

  predicate NoEmptyComponent(p: RelativePath) {
    forall i :: 0 <= i < |ComponentsOf(p)| ==> ComponentsOf(p)[i] != ""
  }

  /** The components of the parent of a non-root path. */
  function ParentComponents(p: RelativePath): seq<string>
    requires p != ""
  {
    ComponentsOf(p)[..|ComponentsOf(p)| - 1]
  }

  predicate IsPrefixOf(a: seq<string>, b: seq<string>) {
    |a| <= |b| && a == b[..|a|]
  }

  /** What the walk delivers: non-root paths without empty components (the
    * walker never yields `a//b`), sorted by `cmp` as `sort_by_file_name`
    * yields them depth first. */
  predicate IsWalk(entries: seq<WalkEntry>) {
    && (forall i :: 0 <= i < |entries| ==>
          entries[i].relativePath != "" && NoEmptyComponent(entries[i].relativePath))
    && SortedByCmp(entries)
  }

  /** Each entry sorts no later than the next. */
  predicate SortedByCmp(entries: seq<WalkEntry>) {
    forall i :: 0 < i < |entries| ==> InOrder(entries, i)
  }

  /** Entry `i` sorts no earlier than entry `i - 1`. */
  predicate InOrder(entries: seq<WalkEntry>, i: nat)
    requires 0 < i < |entries|
  {
    Cmp(entries[i - 1].relativePath, entries[i].relativePath) != Greater
  }

  /** The file an entry of the walk becomes: its own path and metadata, and
    * the default states `push_file` gives every file. */
  function WalkedFile(e: WalkEntry): FileRecord {
    FileRecord(e.relativePath, e.metadata, DefaultChangeState, DefaultConflictState)
  }

  /** The walk's files in walk order. Their paths are what the test collects
    * from the walker to compare with the tree. */
  function WalkFiles(entries: seq<WalkEntry>): seq<FileRecord> {
    if entries == [] then []
    else
      var last := entries[|entries| - 1];
      WalkFiles(entries[..|entries| - 1]) + (if last.isDir then [] else [WalkedFile(last)])
  }

  lemma WalkFilesPrefix(entries: seq<WalkEntry>, t: nat)
    requires t < |entries|
    ensures WalkFiles(entries[..t + 1]) ==
      WalkFiles(entries[..t]) + (if entries[t].isDir then [] else [WalkedFile(entries[t])])
  {
    assert entries[..t + 1][..t] == entries[..t];
  }

  /** In a sorted walk, a path never comes after a path below it, so it is never
    * an ancestor-or-self of the previous entry's parent. */
  lemma SortedNotAncestor(q: RelativePath, p: RelativePath)
    requires q != "" && p != ""
    requires Cmp(q, p) != Greater
    ensures !IsPrefixOf(ComponentsOf(p), ParentComponents(q))
  {
    var ps, qs := ComponentsOf(p), ComponentsOf(q);
    if IsPrefixOf(ps, ParentComponents(q)) {
      assert ps == qs[..|ps|];
      AncestorIsLess(p, q);
    }
  }

  // ---------------------------------------------------------------------
  // The directories a walk implies
  // ---------------------------------------------------------------------

  /** The joins of the first `j` components of `ps`, for `lo < j < hi`. */
  function PrefixPathSet(ps: seq<string>, lo: nat, hi: nat): set<string>
    requires hi <= |ps|
  {
    set j | lo < j < hi :: Join(ps[..j])
  }

  /** The same joins counted once per `j`: the frames the second loop pushes,
    * in multiset form. */
  function PrefixPaths(ps: seq<string>, lo: nat, hi: nat): multiset<string>
    requires hi <= |ps|
    decreases hi
  {
    if hi <= lo + 1 then multiset{} else PrefixPaths(ps, lo, hi - 1) + multiset{Join(ps[..hi - 1])}
  }

  lemma PrefixPathsSnoc(ps: seq<string>, lo: nat, hi: nat)
    requires lo < hi < |ps|
    ensures PrefixPaths(ps, lo, hi + 1) == PrefixPaths(ps, lo, hi) + multiset{Join(ps[..hi])}
  {
  }

  lemma AddUp(a: multiset<string>, p: multiset<string>, x: multiset<string>, q: multiset<string>,
              b: multiset<string>, c: multiset<string>)
    requires b == a + p && c == b + x && q == p + x
    ensures c == a + q
  {
  }

  /** The proper ancestors of `p` other than the root. */
  function AncestorPaths(p: RelativePath): set<string> {
    PrefixPathSet(ComponentsOf(p), 0, |ComponentsOf(p)|)
  }

  /** The directories a walk implies: the root and every proper ancestor of one
    * of its entries. */
  function WalkDirs(entries: seq<WalkEntry>): set<string> {
    {""} + set i, q | 0 <= i < |entries| && q in AncestorPaths(entries[i].relativePath) :: q
  }

  /** Distinct prefixes of non-empty parts join to distinct paths, so each
    * join is counted once. */
  lemma {:induction false} PrefixPathsOnce(ps: seq<string>, lo: nat, hi: nat)
    requires NonEmptyParts(ps) && hi <= |ps|
    ensures PrefixPaths(ps, lo, hi) == multiset(PrefixPathSet(ps, lo, hi))
    decreases hi
  {
    if hi > lo + 1 {
      var x := Join(ps[..hi - 1]);
      calc {
        PrefixPaths(ps, lo, hi);
        PrefixPaths(ps, lo, hi - 1) + multiset{x};
      == { PrefixPathsOnce(ps, lo, hi - 1); }
        multiset(PrefixPathSet(ps, lo, hi - 1)) + multiset{x};
      == { PrefixPathSetSnoc(ps, lo, hi - 1); MultisetAddFresh(PrefixPathSet(ps, lo, hi - 1), x); }
        multiset(PrefixPathSet(ps, lo, hi - 1) + {x});
      == { PrefixPathSetSnoc(ps, lo, hi - 1); }
        multiset(PrefixPathSet(ps, lo, hi));
      }
    } else {
      assert PrefixPathSet(ps, lo, hi) == {};
    }
  }

  /** One more prefix adds one more path, not among the shorter ones. */
  lemma PrefixPathSetSnoc(ps: seq<string>, lo: nat, hi: nat)
    requires NonEmptyParts(ps) && lo < hi < |ps|
    ensures PrefixPathSet(ps, lo, hi + 1) == PrefixPathSet(ps, lo, hi) + {Join(ps[..hi])}
    ensures Join(ps[..hi]) !in PrefixPathSet(ps, lo, hi)
  {
    forall j | lo < j < hi
      ensures Join(ps[..j]) != Join(ps[..hi])
    {
      if Join(ps[..j]) == Join(ps[..hi]) {
        JoinPrefixInjective(ps, j, hi);
      }
    }
  }

  lemma MultisetAddFresh(a: set<string>, x: string)
    requires x !in a
    ensures multiset(a + {x}) == multiset(a) + multiset{x}
  {
    forall y
      ensures multiset(a + {x})[y] == (multiset(a) + multiset{x})[y]
    {
    }
  }

  lemma MultisetOfDisjointUnion(a: set<string>, b: set<string>)
    requires a !! b
    ensures multiset(a + b) == multiset(a) + multiset(b)
  {
    forall x
      ensures multiset(a + b)[x] == (multiset(a) + multiset(b))[x]
    {
    }
  }

  lemma OnceEach(s: set<string>)
    ensures forall q :: multiset(s)[q] <= 1
  {
  }

  lemma WalkDirsSnoc(entries: seq<WalkEntry>, t: nat)
    requires t < |entries|
    ensures WalkDirs(entries[..t + 1]) == WalkDirs(entries[..t]) + AncestorPaths(entries[t].relativePath)
  {
    var a, b := entries[..t], entries[..t + 1];
    assert forall i :: 0 <= i < t ==> b[i] == a[i];
    assert b[t] == entries[t];
  }

  /** In a walk every entry sorts no later than every entry after it. */
  lemma {:induction false} SortedBefore(entries: seq<WalkEntry>, i: nat, k: nat)
    requires SortedByCmp(entries) && i <= k < |entries|
    ensures Cmp(entries[i].relativePath, entries[k].relativePath) != Greater
    decreases k - i
  {
    if i < k {
      assert InOrder(entries, k);
      SortedBefore(entries, i, k - 1);
      CmpTransitive(entries[i].relativePath, entries[k - 1].relativePath, entries[k].relativePath);
    }
  }

  /** An earlier entry sorts no later than the previous entry, which sorts no
    * later than entry `t`. */
  lemma SortedAroundPrevious(entries: seq<WalkEntry>, i: nat, t: nat)
    requires SortedByCmp(entries) && i < t < |entries|
    ensures Cmp(entries[i].relativePath, entries[t - 1].relativePath) != Greater
    ensures Cmp(entries[t - 1].relativePath, entries[t].relativePath) != Greater
  {
    SortedBefore(entries, i, t - 1);
    assert InOrder(entries, t);
  }

  /** The frames along the previous entry's parent are directories the walk
    * has already implied. */
  lemma FramePathSeen(entries: seq<WalkEntry>, t: nat, cs: seq<string>, j: nat)
    requires IsWalk(entries) && t <= |entries|
    requires t == 0 ==> cs == []
    requires t > 0 ==> cs == ParentComponents(entries[t - 1].relativePath)
    requires j <= |cs|
    ensures Join(cs[..j]) in WalkDirs(entries[..t])
  {
    if j == 0 {
      assert cs[..0] == [];
    } else {
      var ls := ComponentsOf(entries[t - 1].relativePath);
      assert cs[..j] == ls[..j];
      assert Join(ls[..j]) in AncestorPaths(entries[..t][t - 1].relativePath);
    }
  }

  /** Joined prefixes of non-empty parts are equal only when the prefixes are. */
  lemma JoinPrefixesEqual(xs: seq<string>, ys: seq<string>, i: nat, j: nat)
    requires NonEmptyParts(xs) && NonEmptyParts(ys)
    requires 0 < i <= |xs| && 0 < j <= |ys|
    requires Join(xs[..i]) == Join(ys[..j])
    ensures xs[..i] == ys[..j]
  {
    NonEmptyPartsPrefix(xs, i);
    NonEmptyPartsPrefix(ys, j);
    ComponentsOfJoin(xs[..i]);
    ComponentsOfJoin(ys[..j]);
  }

  /** The previous entry `ls` sorts between `es` and `ps`, so it starts with
    * their shared prefix, and is longer than it. */
  lemma PreviousSharesPrefix(es: seq<string>, ls: seq<string>, ps: seq<string>, j: nat)
    requires CompareComponents(es, ls) != Greater && CompareComponents(ls, ps) != Greater
    requires j < |es| && j <= |ps| && es[..j] == ps[..j]
    ensures j < |ls| && ls[..j] == ps[..j]
  {
    PrefixBetween(es[..j], es, ls, ps);
    LaterNotProperPrefix(es, ls, j);
  }

  /** A prefix the entry `ps` shares with an earlier entry `es`, short of
    * both, is shared with the parent of the previous entry `ls`: `ls` sorts
    * between the two, so it starts with that prefix too, and it is no ancestor
    * of `es`. */
  lemma EarlierPrefixShared(es: seq<string>, ls: seq<string>, ps: seq<string>, cs: seq<string>, j: nat)
    requires CompareComponents(es, ls) != Greater && CompareComponents(ls, ps) != Greater
    requires ls != [] && cs == ls[..|ls| - 1]
    requires j < |es| && j <= |ps| && es[..j] == ps[..j]
    ensures j <= CommonPrefixLength(ps, cs)
  {
    PreviousSharesPrefix(es, ls, ps, j);
    PrefixOfPrefix(ls, |ls| - 1, j);
    CommonPrefixLengthMaximal(ps, cs, j);
  }

  lemma PrefixOfPrefix(xs: seq<string>, n: nat, j: nat)
    requires j <= n <= |xs|
    ensures xs[..n][..j] == xs[..j]
  {
  }

  /** A prefix of the components `ps` longer than what they share with the
    * parent `cs` of the previous components `ls` joins to no prefix of earlier
    * components `es`. */
  lemma NotEarlierPrefix(es: seq<string>, ls: seq<string>, ps: seq<string>, cs: seq<string>, j: nat)
    requires NonEmptyParts(es) && NonEmptyParts(ps)
    requires CompareComponents(es, ls) != Greater && CompareComponents(ls, ps) != Greater
    requires ls != [] && cs == ls[..|ls| - 1] && CommonPrefixLength(ps, cs) < j < |ps|
    ensures forall j' :: 0 < j' < |es| ==> Join(es[..j']) != Join(ps[..j])
  {
    forall j' | 0 < j' < |es|
      ensures Join(es[..j']) != Join(ps[..j])
    {
      if Join(es[..j']) == Join(ps[..j]) {
        JoinPrefixesEqual(es, ps, j', j);
        EarlierPrefixShared(es, ls, ps, cs, j);
      }
    }
  }

  lemma PathParts(p: RelativePath)
    requires NoEmptyComponent(p)
    ensures NonEmptyParts(ComponentsOf(p))
  {
  }

  /** A prefix of the entry `p` longer than what it shares with the parent of
    * the previous entry `l` is no ancestor of an earlier entry `e`. */
  lemma NotEarlierAncestor(e: RelativePath, l: RelativePath, p: RelativePath, j: nat)
    requires NoEmptyComponent(e) && NoEmptyComponent(p) && l != ""
    requires Cmp(e, l) != Greater && Cmp(l, p) != Greater
    requires CommonPrefixLength(ComponentsOf(p), ParentComponents(l)) < j < |ComponentsOf(p)|
    ensures Join(ComponentsOf(p)[..j]) !in AncestorPaths(e)
  {
    CmpIsCompareComponents(e, l);
    CmpIsCompareComponents(l, p);
    PathParts(e);
    PathParts(p);
    NotEarlierPrefix(ComponentsOf(e), ComponentsOf(l), ComponentsOf(p), ParentComponents(l), j);
  }

  /** An ancestor of the entry deeper than its common ancestor with the
    * previous entry's parent is a directory no earlier entry implied. */
  lemma NewAncestorUnseen(entries: seq<WalkEntry>, t: nat, cs: seq<string>, j: nat)
    requires IsWalk(entries) && t < |entries|
    requires t == 0 ==> cs == []
    requires t > 0 ==> cs == ParentComponents(entries[t - 1].relativePath)
    requires CommonPrefixLength(ComponentsOf(entries[t].relativePath), cs) < j < |ComponentsOf(entries[t].relativePath)|
    ensures Join(ComponentsOf(entries[t].relativePath)[..j]) !in WalkDirs(entries[..t])
  {
    var ps := ComponentsOf(entries[t].relativePath);
    JoinNonEmpty(ps[..j]);
    forall i | 0 <= i < t
      ensures Join(ps[..j]) !in AncestorPaths(entries[..t][i].relativePath)
    {
      assert entries[..t][i] == entries[i];
      SortedAroundPrevious(entries, i, t);
      NotAncestorOfEntry(entries, t, i, j);
    }
  }

  lemma NotAncestorOfEntry(entries: seq<WalkEntry>, t: nat, i: nat, j: nat)
    requires i < t < |entries|
    requires NoEmptyComponent(entries[i].relativePath) && NoEmptyComponent(entries[t].relativePath)
    requires entries[t - 1].relativePath != ""
    requires Cmp(entries[i].relativePath, entries[t - 1].relativePath) != Greater
    requires Cmp(entries[t - 1].relativePath, entries[t].relativePath) != Greater
    requires CommonPrefixLength(ComponentsOf(entries[t].relativePath), ParentComponents(entries[t - 1].relativePath)) < j
    requires j < |ComponentsOf(entries[t].relativePath)|
    ensures Join(ComponentsOf(entries[t].relativePath)[..j]) !in AncestorPaths(entries[i].relativePath)
  {
    NotEarlierAncestor(entries[i].relativePath, entries[t - 1].relativePath, entries[t].relativePath, j);
  }

  /** The joined prefixes up to `hi` are those up to `mid` and those past it. */
  lemma PrefixPathSetSplit(ps: seq<string>, mid: nat, hi: nat)
    requires mid < hi <= |ps|
    ensures PrefixPathSet(ps, 0, hi) == PrefixPathSet(ps, 0, mid + 1) + PrefixPathSet(ps, mid, hi)
  {
  }

  /** The entry's ancestors shared with the frames were implied already. */
  lemma SharedAncestorsSeen(entries: seq<WalkEntry>, t: nat, cs: seq<string>, l: nat)
    requires IsWalk(entries) && t < |entries|
    requires t == 0 ==> cs == []
    requires t > 0 ==> cs == ParentComponents(entries[t - 1].relativePath)
    requires l == CommonPrefixLength(ComponentsOf(entries[t].relativePath), cs)
    requires l < |ComponentsOf(entries[t].relativePath)|
    ensures PrefixPathSet(ComponentsOf(entries[t].relativePath), 0, l + 1) <= WalkDirs(entries[..t])
  {
    var ps := ComponentsOf(entries[t].relativePath);
    forall j | 0 < j <= l
      ensures Join(ps[..j]) in WalkDirs(entries[..t])
    {
      assert ps[..j] == ps[..l][..j] && cs[..j] == cs[..l][..j];
      FramePathSeen(entries, t, cs, j);
    }
  }

  /** None of the entry's ancestors past the frames was implied before. */
  lemma NewAncestorsUnseen(entries: seq<WalkEntry>, t: nat, cs: seq<string>, l: nat)
    requires IsWalk(entries) && t < |entries|
    requires t == 0 ==> cs == []
    requires t > 0 ==> cs == ParentComponents(entries[t - 1].relativePath)
    requires l == CommonPrefixLength(ComponentsOf(entries[t].relativePath), cs)
    ensures PrefixPathSet(ComponentsOf(entries[t].relativePath), l, |ComponentsOf(entries[t].relativePath)|)
      !! WalkDirs(entries[..t])
  {
    var ps := ComponentsOf(entries[t].relativePath);
    forall j | l < j < |ps|
      ensures Join(ps[..j]) !in WalkDirs(entries[..t])
    {
      NewAncestorUnseen(entries, t, cs, j);
    }
  }

  /** What one entry adds to the directories the walk implies: exactly its
    * ancestors deeper than its common ancestor with the previous entry's
    * parent, none of which was implied before. */
  lemma WalkDirsStep(entries: seq<WalkEntry>, t: nat, cs: seq<string>)
    requires IsWalk(entries) && t < |entries|
    requires t == 0 ==> cs == []
    requires t > 0 ==> cs == ParentComponents(entries[t - 1].relativePath)
    ensures var ps := ComponentsOf(entries[t].relativePath);
      CommonPrefixLength(ps, cs) < |ps| &&
      multiset(WalkDirs(entries[..t + 1])) ==
        multiset(WalkDirs(entries[..t])) + PrefixPaths(ps, CommonPrefixLength(ps, cs), |ps|)
  {
    var p := entries[t].relativePath;
    var ps := ComponentsOf(p);
    var l := CommonPrefixLength(ps, cs);
    assert l < |ps| by {
      assert ps[..|ps|] == ps;
      if t > 0 {
        assert InOrder(entries, t);
        SortedNotAncestor(entries[t - 1].relativePath, p);
      }
    }
    var w, h := WalkDirs(entries[..t]), PrefixPathSet(ps, l, |ps|);
    assert WalkDirs(entries[..t + 1]) == w + h by {
      WalkDirsSnoc(entries, t);
      PrefixPathSetSplit(ps, l, |ps|);
      SharedAncestorsSeen(entries, t, cs, l);
    }
    NewAncestorsUnseen(entries, t, cs, l);
    MultisetOfDisjointUnion(w, h);
    PrefixPathsOnce(ps, l, |ps|);
  }

  /** The first entry of a walk is checked against the root frame, so the
    * common ancestor is the root and, as written, the missing-directory
    * iterator starts at byte 1. For a walk whose first entry is the file
    * `é.txt` that byte falls inside `é`, and the first `next` panics. */
  lemma FirstEntryPanicsExample(metadata: FileMetadata)
    ensures var p: RelativePath := "\U{E9}.txt";
      && IsWalk([WalkEntry(p, false, metadata)])
      && SharedComponents(p, "") == 0
      && NextPanicsAt(p, StartByteIndex(p, ""))
  {
    var p: RelativePath := "\U{E9}.txt";
    ComponentsOfSingle(p);
    assert IsWalk([WalkEntry(p, false, metadata)]) by {
      assert NoEmptyComponent(p);
    }
    StartingAtCommonAncestorBytes(p, "");
    StartingPastRootBytes(p);
  }

  // ---------------------------------------------------------------------
  // The stack as an object
  // ---------------------------------------------------------------------

  /** `DirStack`: the directories from the root down to the one being filled. */
  class DirStack {
    var stack: seq<Directory>

    constructor ()
      ensures stack == [NewDirectory("", [])]
    {
      stack := [NewDirectory("", [])];
    }

    /** `last`: the directory being filled, whose path is that of the frames'
      * components. The Rust code panics on an empty stack, so callers must
      * not call it there. */
    function Last(): (d: Directory)
      reads this
      requires stack != []
      ensures forall cs :: FramesAlong(stack, cs) ==> d.relativePath == Join(cs)
    {
      TopFrames(stack);
      stack[|stack| - 1]
    }

    method PopTail()
      requires |stack| >= 2 ==> Top(stack).relativePath != ""
      modifies this
      ensures stack == PoppedStack(old(stack))
    {
      if |stack| > 0 {
        var last := stack[|stack| - 1];
        stack := stack[..|stack| - 1];
        if |stack| > 0 {
          var name := FileName(last.relativePath).value;
          var newLast := PushEntry(stack[|stack| - 1], DirectoryEntry(name, Dir(Some(last))));
          stack := stack[..|stack| - 1] + [newLast];
        }
      }
    }

    method PushDirectory(directoryPath: RelativePath)
      modifies this
      ensures stack == old(stack) + [NewDirectory(directoryPath, [])]
    {
      stack := stack + [NewDirectory(directoryPath, [])];
    }

    method PushFile(fileName: string, metadata: FileMetadata)
      requires stack != []
      modifies this
      ensures stack == PushedFile(old(stack), fileName, metadata)
    {
      var file := DirectoryEntry(fileName, File(metadata, DefaultChangeState, DefaultConflictState));
      stack := stack[..|stack| - 1] + [PushEntry(stack[|stack| - 1], file)];
    }

    /** `finalize`: pop down to the root and take it; the stack is left empty. */
    method Finalize() returns (root: Directory)
      requires stack != [] && PathsAboveRootNonEmpty(stack)
      modifies this
      ensures root == Collapse(old(stack)) && stack == []
    {
      while |stack| > 1
        invariant stack != [] && PathsAboveRootNonEmpty(stack)
        invariant Collapse(stack) == Collapse(old(stack))
        decreases |stack|
      {
        ghost var before := stack;
        PopTail();
        assert PathsAboveRootNonEmpty(stack) by { PopKeepsPathsAboveRoot(before); }
      }
      root := stack[0];
      stack := [];
    }
  }

  // ---------------------------------------------------------------------
  // The generator loop
  // ---------------------------------------------------------------------

  /** `pop_tail` on frames along the first `m` components of `cs`. */
  method PopFrame(dirStack: DirStack, ghost cs: seq<string>, ghost m: nat)
    requires 0 < m <= |cs| && BuilderStack(dirStack.stack, cs[..m])
    modifies dirStack
    ensures BuilderStack(dirStack.stack, cs[..m - 1])
    ensures StackFiles(dirStack.stack) == StackFiles(old(dirStack.stack))
    ensures StackDirs(dirStack.stack) == StackDirs(old(dirStack.stack))
  {
    PopAlong(dirStack.stack, cs[..m]);
    PopKeepsDirs(dirStack.stack);
    dirStack.PopTail();
    assert cs[..m][..m - 1] == cs[..m - 1];
  }

  /** The first loop of an iteration: pop frames until the top one is the
    * common ancestor, whose path is the join of the first `l` components. */
  method PopToCommonAncestor(dirStack: DirStack, commonAncestor: RelativePathComponents,
                             ghost cs: seq<string>, ghost l: nat)
    requires l <= |cs| && BuilderStack(dirStack.stack, cs)
    requires commonAncestor.inner == Join(cs[..l])
    modifies dirStack
    ensures BuilderStack(dirStack.stack, cs[..l])
    ensures StackFiles(dirStack.stack) == StackFiles(old(dirStack.stack))
    ensures StackDirs(dirStack.stack) == StackDirs(old(dirStack.stack))
  {
    assert cs[..|cs|] == cs;
    ghost var m := |cs|;
    while !EqualsComponents(dirStack.Last().relativePath, commonAncestor)
      invariant l <= m <= |cs| && |dirStack.stack| == m + 1
      invariant BuilderStack(dirStack.stack, cs[..m])
      invariant StackFiles(dirStack.stack) == StackFiles(old(dirStack.stack))
      invariant StackDirs(dirStack.stack) == StackDirs(old(dirStack.stack))
      decreases m
    {
      assert m != l by {
        TopFrame(dirStack.stack, cs[..m]);
      }
      PopFrame(dirStack, cs, m);
      m := m - 1;
    }
    assert m == l by {
      TopFrame(dirStack.stack, cs[..m]);
      JoinPrefixInjective(cs, l, m);
    }
  }

  /** At the offset of the `k`-th component, the iterator is at its last entry
    * exactly when `k` is all of them, and `next` moves on to the next offset. */
  lemma MissingStep(p: RelativePath, k: nat)
    requires 1 <= k <= |ComponentsOf(p)|
    ensures Offset(p, k) >= |p| <==> k == |ComponentsOf(p)|
    ensures var r := Step(p, Offset(p, k));
      && (k < |ComponentsOf(p)| ==> r.0.Some? && r.1 == Offset(p, k + 1))
      && (k == |ComponentsOf(p)| ==> r.0.None?)
  {
    LastEntryAtOffset(p, k);
    StepFrom(p, k);
  }

  /** The body of the second loop: unless the iterator is at its last entry,
    * push a frame for the components consumed so far. */
  method PushUnlessLast(dirStack: DirStack, missing: RelativePathComponents, ghost k: nat)
    requires missing.Valid() && IsRelativePath(missing.inner)
    requires NoEmptyComponent(missing.inner)
    requires 0 < k <= |ComponentsOf(missing.inner)|
    requires missing.index == Offset(missing.inner, k)
    requires BuilderStack(dirStack.stack, ComponentsOf(missing.inner)[..k - 1])
    modifies dirStack
    ensures BuilderStack(dirStack.stack,
      ComponentsOf(missing.inner)[..if k < |ComponentsOf(missing.inner)| then k else k - 1])
    ensures StackFiles(dirStack.stack) == StackFiles(old(dirStack.stack))
    ensures k < |ComponentsOf(missing.inner)| ==>
      StackDirs(dirStack.stack) == StackDirs(old(dirStack.stack)) + multiset{Join(ComponentsOf(missing.inner)[..k])}
    ensures k == |ComponentsOf(missing.inner)| ==> StackDirs(dirStack.stack) == StackDirs(old(dirStack.stack))
  {
    ghost var p: RelativePath := missing.inner;
    ghost var ps := ComponentsOf(p);
    if !missing.IsAtLastEntry() {
      assert k < |ps| by {
        LastEntryAtOffset(p, k);
      }
      AccumulatedAtOffset(p, k);
      JoinPrefixIsRelativePath(p, k);
      NewOfRelativePath(Join(ps[..k]));
      var newDirPath := New(missing.AsAccumulatedStr());
      PushAlong(dirStack.stack, ps, k - 1, newDirPath.value);
      PushedDirectoryDirs(dirStack.stack, newDirPath.value);
      dirStack.PushDirectory(newDirPath.value);
    } else {
      assert k == |ps| by {
        LastEntryAtOffset(p, k);
      }
    }
  }

  /** One turn of that loop: the push for component `k` unless it is the
    * last, then `next` towards component `k + 1`. */
  method MissingIteration(dirStack: DirStack, missing: RelativePathComponents, ghost k: nat)
    returns (next: Option<string>, ghost k': nat)
    requires missing.Valid() && IsRelativePath(missing.inner)
    requires NoEmptyComponent(missing.inner)
    requires 0 < k <= |ComponentsOf(missing.inner)|
    requires missing.index == Offset(missing.inner, k)
    requires BuilderStack(dirStack.stack, ComponentsOf(missing.inner)[..k - 1])
    modifies dirStack, missing
    ensures missing.Valid()
    ensures k' == if k < |ComponentsOf(missing.inner)| then k + 1 else k
    ensures next.Some? ==> missing.index == Offset(missing.inner, k')
    ensures next.None? <==> k == |ComponentsOf(missing.inner)|
    ensures BuilderStack(dirStack.stack, ComponentsOf(missing.inner)[..k' - 1])
    ensures StackFiles(dirStack.stack) == StackFiles(old(dirStack.stack))
    ensures k < |ComponentsOf(missing.inner)| ==>
      StackDirs(dirStack.stack) == StackDirs(old(dirStack.stack)) + multiset{Join(ComponentsOf(missing.inner)[..k])}
    ensures k == |ComponentsOf(missing.inner)| ==> StackDirs(dirStack.stack) == StackDirs(old(dirStack.stack))
  {
    ghost var p: RelativePath := missing.inner;
    ghost var n := |ComponentsOf(p)|;
    PushUnlessLast(dirStack, missing, k);
    k' := if k < n then k + 1 else k;
    assert k' - 1 == if k < n then k else k - 1;
    next := missing.Next();
    assert next.Some? ==> missing.index == Offset(p, k') by {
      MissingStep(p, k);
    }
    assert next.None? <==> k == n by {
      MissingStep(p, k);
    }
  }

  /** The second loop of an iteration: walk the components of `relativePath`
    * past the common ancestor with `stackPath` and push a frame for each one
    * but the last. The iterator starts where the components not shared
    * begin, also below the root. */
  method PushMissingDirectories(dirStack: DirStack, relativePath: RelativePath, stackPath: RelativePath)
    requires relativePath != "" && NoEmptyComponent(relativePath)
    requires SharedComponents(relativePath, stackPath) < |ComponentsOf(relativePath)|
    requires BuilderStack(dirStack.stack, ComponentsOf(relativePath)[..SharedComponents(relativePath, stackPath)])
    modifies dirStack
    ensures BuilderStack(dirStack.stack, ParentComponents(relativePath))
    ensures StackFiles(dirStack.stack) == StackFiles(old(dirStack.stack))
    ensures StackDirs(dirStack.stack) == StackDirs(old(dirStack.stack)) +
      PrefixPaths(ComponentsOf(relativePath), SharedComponents(relativePath, stackPath), |ComponentsOf(relativePath)|)
  {
    ghost var ps := ComponentsOf(relativePath);
    ghost var n := |ps|;
    ghost var l := SharedComponents(relativePath, stackPath);
    // The corrected start (see `ComponentsAfterCommonAncestor`): as written,
    // the Rust code starts at byte 1 below the root.
    var missing := ComponentsAfterCommonAncestor(relativePath, stackPath);
    ghost var k := l + 1;
    ghost var dirs0 := StackDirs(dirStack.stack);
    var next := missing.Next();
    assert next.Some? && missing.index == Offset(relativePath, k) by {
      StepFrom(relativePath, l);
    }
    while next.Some?
      invariant missing.Valid() && missing.inner == relativePath
      invariant l + 1 <= k <= n
      invariant next.Some? ==> missing.index == Offset(relativePath, k)
      invariant next.None? ==> k == n
      invariant BuilderStack(dirStack.stack, ps[..k - 1])
      invariant StackFiles(dirStack.stack) == StackFiles(old(dirStack.stack))
      invariant StackDirs(dirStack.stack) == dirs0 + PrefixPaths(ps, l, k)
      decreases n - k + (if next.Some? then 1 else 0)
    {
      ghost var k0, dirs := k, StackDirs(dirStack.stack);
      next, k := MissingIteration(dirStack, missing, k);
      if k0 < n {
        PrefixPathsSnoc(ps, l, k0);
        AddUp(dirs0, PrefixPaths(ps, l, k0), multiset{Join(ps[..k0])}, PrefixPaths(ps, l, k),
          dirs, StackDirs(dirStack.stack));
      }
    }
    assert ParentComponents(relativePath) == ps[..k - 1];
  }

  /** The stack path is the join of `cs`, and the entry is no ancestor-or-self
    * of it: the common ancestor is the first `l` components of both, `l` is
    * less than the entry's component count, and the sharing is symmetric. */
  lemma CommonAncestorOfFrames(cs: seq<string>, stackPath: RelativePath, p: RelativePath)
    requires NonEmptyParts(cs) && stackPath == Join(cs)
    requires p != "" && !IsPrefixOf(ComponentsOf(p), cs)
    ensures var l := SharedComponents(stackPath, p);
      && l <= |cs| && l < |ComponentsOf(p)|
      && cs[..l] == ComponentsOf(p)[..l]
      && SharedComponents(p, stackPath) == l
      && CommonAncestorOf(stackPath, p) == Join(cs[..l])
  {
    ComponentsOfJoin(cs);
    CommonPrefixLengthSymmetric(cs, ComponentsOf(p));
  }

  /** Pushing the entry's file onto the frames along its parent appends the
    * entry's path to the file list. */
  lemma PushFileStep(st: seq<Directory>, p: RelativePath, metadata: FileMetadata)
    requires p != "" && NoEmptyComponent(p) && BuilderStack(st, ParentComponents(p))
    ensures BuilderStack(PushedFile(st, FileName(p).value, metadata), ParentComponents(p))
    ensures StackFiles(PushedFile(st, FileName(p).value, metadata)) ==
      StackFiles(st) + [FileRecord(p, metadata, DefaultChangeState, DefaultConflictState)]
  {
    FileNameIsLastComponent(p);
    ParentChildPath(p);
    TopFrame(st, ParentComponents(p));
    PushFileAlong(st, ParentComponents(p), FileName(p).value, metadata);
  }

  /** What `finalize` makes of the frames along `cs`: a well-built tree rooted
    * at `""` with the files and the directories of the frames, and, when no
    * directory occurs twice, no two sibling directories of one name. */
  lemma CollapseBuilderStack(st: seq<Directory>, cs: seq<string>)
    requires BuilderStack(st, cs)
    ensures PathsAboveRootNonEmpty(st)
    ensures Collapse(st).relativePath == "" && WellBuilt(Collapse(st))
    ensures Files(Collapse(st)) == StackFiles(st)
    ensures Dirs(Collapse(st)) == StackDirs(st)
    ensures (forall q :: StackDirs(st)[q] <= 1) ==> UniqueDirectoryNames(Collapse(st))
  {
    assert FramePath(st, 0) == Join(cs[..0]);
    FramesAlongChained(st, cs);
    CollapseKeepsFrames(st);
    CollapseDirs(st);
    if forall q :: StackDirs(st)[q] <= 1 {
      DirsOnceUniqueNames(Collapse(st));
    }
  }

  /** One iteration of the loop of `generate_directory_tree_from_path`: pop to
    * the common ancestor of the stack and the entry, push the directories
    * missing below it, and push the entry itself when it is a file. Afterwards
    * the stack holds exactly the frames along the entry's parent, and the file
    * list has grown by the entry when it is a file. */
  method ProcessEntry(dirStack: DirStack, entry: WalkEntry, ghost cs: seq<string>)
    requires BuilderStack(dirStack.stack, cs)
    requires entry.relativePath != "" && NoEmptyComponent(entry.relativePath)
    requires !IsPrefixOf(ComponentsOf(entry.relativePath), cs)
    modifies dirStack
    ensures BuilderStack(dirStack.stack, ParentComponents(entry.relativePath))
    ensures StackFiles(dirStack.stack) ==
      StackFiles(old(dirStack.stack)) + (if entry.isDir then [] else [WalkedFile(entry)])
    ensures var ps := ComponentsOf(entry.relativePath);
      StackDirs(dirStack.stack) == StackDirs(old(dirStack.stack)) + PrefixPaths(ps, CommonPrefixLength(ps, cs), |ps|)
  {
    ghost var dirs0 := StackDirs(dirStack.stack);
    var relativePath := entry.relativePath;
    var stackPath := dirStack.Last().relativePath;
    TopFrame(dirStack.stack, cs);
    ghost var l := SharedComponents(stackPath, relativePath);
    CommonAncestorOfFrames(cs, stackPath, relativePath);
    var commonAncestor := CommonAncestor(stackPath, relativePath);
    PopToCommonAncestor(dirStack, commonAncestor, cs, l);
    PushMissingDirectories(dirStack, relativePath, stackPath);
    ghost var ps := ComponentsOf(relativePath);
    assert StackDirs(dirStack.stack) == dirs0 + PrefixPaths(ps, CommonPrefixLength(ps, cs), |ps|) by {
      ComponentsOfJoin(cs);
    }

    // Only files are pushed here; directories are attached when popped.
    if !entry.isDir {
      var fileName := FileName(relativePath).value;
      PushFileStep(dirStack.stack, relativePath, entry.metadata);
      PushedFileDirs(dirStack.stack, fileName, entry.metadata);
      dirStack.PushFile(fileName, entry.metadata);
    }
  }

  /** `generate_directory_tree_from_path` over a given walk: the result is a
    * fully loaded, consistently aggregated tree rooted at `""` whose files,
    * depth first, are exactly the walk's files in walk order. */
  method GenerateDirectoryTree(entries: seq<WalkEntry>) returns (root: Directory)
    requires IsWalk(entries)
    ensures root.relativePath == ""
    ensures Aggregated(root) && FullyLoaded(root) && PathsConsistent(root)
    ensures Files(root) == WalkFiles(entries)
    ensures Dirs(root) == multiset(WalkDirs(entries))
    ensures UniqueDirectoryNames(root)
  {
    var dirStack := new DirStack();
    ghost var cs: seq<string> := [];
    InitialStack();
    assert WalkDirs(entries[..0]) == {""};
    for t := 0 to |entries|
      invariant BuilderStack(dirStack.stack, cs)
      invariant t == 0 ==> cs == []
      invariant t > 0 ==> cs == ParentComponents(entries[t - 1].relativePath)
      invariant StackFiles(dirStack.stack) == WalkFiles(entries[..t])
      invariant StackDirs(dirStack.stack) == multiset(WalkDirs(entries[..t]))
    {
      var entry := entries[t];
      WalkDirsStep(entries, t, cs);
      if t > 0 {
        assert InOrder(entries, t);
        SortedNotAncestor(entries[t - 1].relativePath, entry.relativePath);
      }
      ProcessEntry(dirStack, entry, cs);
      cs := ParentComponents(entry.relativePath);
      WalkFilesPrefix(entries, t);
    }
    assert entries[..|entries|] == entries;
    OnceEach(WalkDirs(entries));
    CollapseBuilderStack(dirStack.stack, cs);
    root := dirStack.Finalize();
  }
}
