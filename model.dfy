/**
 * The workspace directory tree (src/v1/model.rs): directories holding
 * entries, each entry a file or a sub-directory that may be unloaded, and
 * the two state sets every directory caches about what lies below it.
 *
 * Directories are values here; `push_entry` and `prune_to_depth`, which
 * update a directory in place, return the updated directory instead.
 */
module Model {
  import opened Wrappers
  import opened Common

  datatype ChangeState = Unchanged | Added | Modified | Deleted

  /** `ConflictState::None` is called `NoConflict` here, to keep it apart
    * from `Option.None`. */
  datatype ConflictState = NoConflict | Unresolved | Resolved | Incoming

  /** The `#[default]` variants. */
  const DefaultChangeState: ChangeState := Unchanged
  const DefaultConflictState: ConflictState := NoConflict

  /** Rust's `u64`. */
  type U64 = n: int | 0 <= n < 0x1_0000_0000_0000_0000

  datatype FileMetadata = FileMetadata(sizeBytes: U64, modifiedTimeUnixMsUtc: U64)

  /** `DirectoryEntryType`: a file, or a directory that is `None` while unloaded. */
  datatype DirectoryEntryType =
    | File(metadata: FileMetadata, changeState: ChangeState, conflictState: ConflictState)
    | Dir(dir: Option<Directory>)

  datatype DirectoryEntry = DirectoryEntry(name: string, info: DirectoryEntryType)

  datatype Directory = Directory(
    relativePath: RelativePath,
    entries: seq<DirectoryEntry>,
    conflictStates: set<ConflictState>,
    changeStates: set<ChangeState>)

  /** The pair of sets `aggregate_states_into` updates. */
  datatype StateSets = StateSets(conflicts: set<ConflictState>, changes: set<ChangeState>)
  {
    function Union(other: StateSets): StateSets {
      StateSets(conflicts + other.conflicts, changes + other.changes)
    }
  }

  const NoStates := StateSets({}, {})

  function States(d: Directory): StateSets {
    StateSets(d.conflictStates, d.changeStates)
  }

  function IsLoadedDir(e: DirectoryEntry): bool {
    e.info.Dir? && e.info.dir.Some?
  }

  /** What one entry contributes to its directory's sets: a file its own
    * two states, a loaded directory its cached sets, an unloaded one nothing. */
  function EntryStates(e: DirectoryEntry): StateSets {
    match e.info
    case File(_, change, conflict) => StateSets({conflict}, {change})
    case Dir(Some(d)) => States(d)
    case Dir(None) => NoStates
  }

  /** `aggregate_states_into`: adds the entry's states to the two sets and
    * removes nothing. */
  function AggregateStatesInto(e: DirectoryEntry, acc: StateSets): (r: StateSets)
    ensures r == acc.Union(EntryStates(e))
    ensures acc.conflicts <= r.conflicts && acc.changes <= r.changes
    ensures e.info.Dir? && e.info.dir.None? ==> r == acc
  {
    match e.info
    case File(_, change, conflict) => StateSets(acc.conflicts + {conflict}, acc.changes + {change})
    case Dir(Some(d)) => StateSets(acc.conflicts + d.conflictStates, acc.changes + d.changeStates)
    case Dir(None) => acc
  }

  /** The union of the contributions of a list of entries: a state is in it
    * exactly when some entry contributes it. */
  function StatesUnion(es: seq<DirectoryEntry>): StateSets {
    if es == [] then NoStates
    else StatesUnion(es[..|es| - 1]).Union(EntryStates(es[|es| - 1]))
  }

  /** A conflict state is in the union exactly when some entry contributes it. */
  lemma {:induction false} StatesUnionConflicts(es: seq<DirectoryEntry>)
    ensures forall c :: c in StatesUnion(es).conflicts <==> exists i :: 0 <= i < |es| && c in EntryStates(es[i]).conflicts
    decreases |es|
  {
    if es != [] {
      var n := |es|;
      var front, last := es[..n - 1], es[n - 1];
      assert StatesUnion(es) == StatesUnion(front).Union(EntryStates(last));
      StatesUnionConflicts(front);
      forall c
        ensures c in StatesUnion(es).conflicts <==> exists i :: 0 <= i < n && c in EntryStates(es[i]).conflicts
      {
        if exists i :: 0 <= i < n && c in EntryStates(es[i]).conflicts {
          var i :| 0 <= i < n && c in EntryStates(es[i]).conflicts;
          if i < n - 1 {
            assert front[i] == es[i];
          }
        }
        if c in StatesUnion(front).conflicts {
          var i :| 0 <= i < n - 1 && c in EntryStates(front[i]).conflicts;
          assert front[i] == es[i];
        }
      }
    }
  }

  /** A change state is in the union exactly when some entry contributes it. */
  lemma {:induction false} StatesUnionChanges(es: seq<DirectoryEntry>)
    ensures forall c :: c in StatesUnion(es).changes <==> exists i :: 0 <= i < |es| && c in EntryStates(es[i]).changes
    decreases |es|
  {
    if es != [] {
      var n := |es|;
      var front, last := es[..n - 1], es[n - 1];
      assert StatesUnion(es) == StatesUnion(front).Union(EntryStates(last));
      StatesUnionChanges(front);
      forall c
        ensures c in StatesUnion(es).changes <==> exists i :: 0 <= i < n && c in EntryStates(es[i]).changes
      {
        if exists i :: 0 <= i < n && c in EntryStates(es[i]).changes {
          var i :| 0 <= i < n && c in EntryStates(es[i]).changes;
          if i < n - 1 {
            assert front[i] == es[i];
          }
        }
        if c in StatesUnion(front).changes {
          var i :| 0 <= i < n - 1 && c in EntryStates(front[i]).changes;
          assert front[i] == es[i];
        }
      }
    }
  }

  /** The union taken from the first entry instead of the last. */
  lemma {:induction false} StatesUnionCons(es: seq<DirectoryEntry>)
    requires es != []
    ensures StatesUnion(es) == EntryStates(es[0]).Union(StatesUnion(es[1..]))
    decreases |es|
  {
    var n := |es|;
    if n == 1 {
      assert es[..0] == [] && es[1..] == [];
    } else {
      var front := es[..n - 1];
      assert front[0] == es[0];
      assert front[1..] == es[1..][..n - 2];
      assert es[1..][n - 2] == es[n - 1];
      StatesUnionCons(front);
    }
  }

  /** The fold in `Directory::new`, entry by entry from the first. */
  function FoldStates(es: seq<DirectoryEntry>, acc: StateSets): (r: StateSets)
    ensures r == acc.Union(StatesUnion(es))
  {
    if es == [] then acc
    else
      var r := FoldStates(es[1..], AggregateStatesInto(es[0], acc));
      StatesUnionCons(es);
      r
  }

  /** `Directory::new`: the given path and entries, with the sets equal to
    * the union of the entries' contributions. */
  function NewDirectory(relativePath: RelativePath, entries: seq<DirectoryEntry>): (d: Directory)
    ensures d.relativePath == relativePath && d.entries == entries
    ensures States(d) == StatesUnion(entries)
  {
    var s := FoldStates(entries, NoStates);
    Directory(relativePath, entries, s.conflicts, s.changes)
  }

  /** `push_entry`: appends the entry and adds its contribution to the sets. */
  function PushEntry(d: Directory, e: DirectoryEntry): (r: Directory)
    ensures r.relativePath == d.relativePath
    ensures r.entries == d.entries + [e]
    ensures States(r) == States(d).Union(EntryStates(e))
    ensures d.conflictStates <= r.conflictStates && d.changeStates <= r.changeStates
    ensures States(d) == StatesUnion(d.entries) ==> r == NewDirectory(d.relativePath, d.entries + [e])
  {
    var s := AggregateStatesInto(e, States(d));
    assert (d.entries + [e])[..|d.entries|] == d.entries;
    Directory(d.relativePath, d.entries + [e], s.conflicts, s.changes)
  }

  /** A root holding a file (Added, no conflict) and a sub-directory holding
    * a file (Modified, Unresolved) caches both files' states and no others ... */
  lemma StateAggregationExample(m1: FileMetadata, m2: FileMetadata)
    ensures var file1 := DirectoryEntry("file1.txt", File(m1, Added, NoConflict));
      var file2 := DirectoryEntry("file2.txt", File(m2, Modified, Unresolved));
      var subEntry := DirectoryEntry("subdir", Dir(Some(NewDirectory("subdir", [file2]))));
      var dir := NewDirectory("", [file1, subEntry]);
      && Added in dir.changeStates && Modified in dir.changeStates && Deleted !in dir.changeStates
      && NoConflict in dir.conflictStates && Unresolved in dir.conflictStates && Resolved !in dir.conflictStates
  {
    var file1 := DirectoryEntry("file1.txt", File(m1, Added, NoConflict));
    var file2 := DirectoryEntry("file2.txt", File(m2, Modified, Unresolved));
    var sub := NewDirectory("subdir", [file2]);
    var subEntry := DirectoryEntry("subdir", Dir(Some(sub)));
    var es := [file1, subEntry];
    assert EntryStates(subEntry) == StateSets({Unresolved}, {Modified}) by {
      assert [file2][..0] == [];
    }
    assert es[..1] == [file1] && [file1][..0] == [];
  }

  /** ... and building the same root by two pushes gives the same directory. */
  lemma PushEntryExample(m1: FileMetadata, m2: FileMetadata)
    ensures var file1 := DirectoryEntry("file1.txt", File(m1, Added, NoConflict));
      var file2 := DirectoryEntry("file2.txt", File(m2, Modified, Unresolved));
      var subEntry := DirectoryEntry("subdir", Dir(Some(NewDirectory("subdir", [file2]))));
      PushEntry(PushEntry(NewDirectory("", []), file1), subEntry) == NewDirectory("", [file1, subEntry])
  {
    var file1 := DirectoryEntry("file1.txt", File(m1, Added, NoConflict));
    var file2 := DirectoryEntry("file2.txt", File(m2, Modified, Unresolved));
    var subEntry := DirectoryEntry("subdir", Dir(Some(NewDirectory("subdir", [file2]))));
    assert [] + [file1] == [file1] && [file1] + [subEntry] == [file1, subEntry];
  }

  /** Every directory in the tree caches exactly the union of its entries'
    * contributions. */
  predicate Aggregated(d: Directory)
    decreases d
  {
    && States(d) == StatesUnion(d.entries)
    && forall i :: 0 <= i < |d.entries| ==> EntryAggregated(d.entries[i])
  }

  predicate EntryAggregated(e: DirectoryEntry)
    decreases e
  {
    IsLoadedDir(e) ==> Aggregated(e.info.dir.value)
  }

  /** The states of the files reachable through loaded directories, computed
    * from the files alone, without the cached sets. */
  function LeafStates(d: Directory): StateSets
    decreases d
  {
    LeafStatesOf(d.entries)
  }

  function LeafStatesOf(es: seq<DirectoryEntry>): StateSets
    decreases es
  {
    if es == [] then NoStates
    else LeafStatesOf(es[..|es| - 1]).Union(EntryLeafStates(es[|es| - 1]))
  }

  function EntryLeafStates(e: DirectoryEntry): StateSets
    decreases e
  {
    match e.info
    case File(_, change, conflict) => StateSets({conflict}, {change})
    case Dir(Some(d)) => LeafStates(d)
    case Dir(None) => NoStates
  }

  /** In an aggregated tree the cached sets are the states of the loaded files below. */
  lemma {:induction false} AggregatedIsLeafStates(d: Directory)
    requires Aggregated(d)
    ensures States(d) == LeafStates(d)
    decreases d, 1
  {
    AggregatedEntriesAreLeafStates(d, d.entries);
  }

  lemma {:induction false} AggregatedEntriesAreLeafStates(d: Directory, es: seq<DirectoryEntry>)
    requires es <= d.entries
    requires forall i :: 0 <= i < |es| ==> EntryAggregated(es[i])
    ensures StatesUnion(es) == LeafStatesOf(es)
    decreases d, 0, |es|
  {
    if es != [] {
      var n := |es|;
      assert es[..n - 1] <= d.entries;
      AggregatedEntriesAreLeafStates(d, es[..n - 1]);
      var e := es[n - 1];
      assert e == d.entries[n - 1];
      if IsLoadedDir(e) {
        AggregatedIsLeafStates(e.info.dir.value);
      }
    }
  }

  /** `prune_to_depth` as a function: every loaded directory `depthLimit + 1`
    * levels down becomes unloaded; nothing else changes. */
  function Pruned(d: Directory, depthLimit: nat): (r: Directory)
    ensures r.relativePath == d.relativePath
    ensures r.conflictStates == d.conflictStates && r.changeStates == d.changeStates
    ensures |r.entries| == |d.entries|
    ensures forall i :: 0 <= i < |d.entries| ==> r.entries[i].name == d.entries[i].name
    ensures forall i :: 0 <= i < |d.entries| && d.entries[i].info.File? ==> r.entries[i] == d.entries[i]
    decreases d
  {
    d.(entries := PrunedEntries(d.entries, depthLimit))
  }

  function PrunedEntries(es: seq<DirectoryEntry>, depthLimit: nat): (r: seq<DirectoryEntry>)
    ensures |r| == |es|
    ensures forall i :: 0 <= i < |es| ==> r[i] == PrunedEntry(es[i], depthLimit)
    decreases es
  {
    if es == [] then []
    else PrunedEntries(es[..|es| - 1], depthLimit) + [PrunedEntry(es[|es| - 1], depthLimit)]
  }

  function PrunedEntry(e: DirectoryEntry, depthLimit: nat): DirectoryEntry
    decreases e
  {
    match e.info
    case Dir(Some(sub)) =>
      if depthLimit > 0 then e.(info := Dir(Some(Pruned(sub, depthLimit - 1))))
      else e.(info := Dir(None))
    case _ => e
  }

  /** `prune_to_depth`, rewriting the entries one by one and recursing into
    * loaded sub-directories while depth remains. */
  method PruneToDepth(d: Directory, depthLimit: nat) returns (r: Directory)
    ensures r == Pruned(d, depthLimit)
    decreases d
  {
    var entries := d.entries;
    var i := 0;
    while i < |entries|
      invariant i <= |entries| == |d.entries|
      invariant forall j :: 0 <= j < i ==> entries[j] == PrunedEntry(d.entries[j], depthLimit)
      invariant forall j :: i <= j < |entries| ==> entries[j] == d.entries[j]
    {
      var entry := entries[i];
      assert entry == d.entries[i];
      if entry.info.Dir? && entry.info.dir.Some? {
        var dir := entry.info.dir.value;
        if depthLimit > 0 {
          var pruned := PruneToDepth(dir, depthLimit - 1);
          entries := entries[i := entry.(info := Dir(Some(pruned)))];
        } else {
          entries := entries[i := entry.(info := Dir(None))];
        }
      }
      i := i + 1;
    }
    r := d.(entries := entries);
  }

  /** Two trees agree in everything pruning keeps: paths, cached sets, the
    * number, names and order of entries, every file, every unloaded
    * directory, and the same again in every sub-directory loaded in both. */
  predicate SameShape(a: Directory, b: Directory)
    decreases a
  {
    && a.relativePath == b.relativePath
    && States(a) == States(b)
    && |a.entries| == |b.entries|
    && forall i :: 0 <= i < |a.entries| ==> EntrySameShape(a.entries[i], b.entries[i])
  }

  predicate EntrySameShape(x: DirectoryEntry, y: DirectoryEntry)
    decreases x
  {
    && x.name == y.name
    && (x.info.File? ==> y.info == x.info)
    && (x.info.Dir? <==> y.info.Dir?)
    && (x.info == Dir(None) ==> y.info == Dir(None))
    && (IsLoadedDir(x) && IsLoadedDir(y) ==> SameShape(x.info.dir.value, y.info.dir.value))
  }

  lemma {:induction false} PrunedSameShape(d: Directory, depthLimit: nat)
    ensures SameShape(d, Pruned(d, depthLimit))
    decreases d
  {
    var p := Pruned(d, depthLimit);
    forall i | 0 <= i < |d.entries|
      ensures EntrySameShape(d.entries[i], p.entries[i])
    {
      var e := d.entries[i];
      if IsLoadedDir(e) && depthLimit > 0 {
        PrunedSameShape(e.info.dir.value, depthLimit - 1);
      }
    }
  }

  /** `prune_to_depth(0)` unloads every loaded immediate sub-directory and
    * keeps its name; every other entry stays as it is. */
  lemma PruneToZero(d: Directory)
    ensures |Pruned(d, 0).entries| == |d.entries|
    ensures forall i :: 0 <= i < |d.entries| ==>
      Pruned(d, 0).entries[i] ==
        if d.entries[i].info.Dir? then DirectoryEntry(d.entries[i].name, Dir(None)) else d.entries[i]
  {
  }

  /** Following `route` from `d`, one entry index per level, passes through
    * loaded directories only. */
  predicate LoadedAt(d: Directory, route: seq<nat>)
    decreases |route|
  {
    route == [] ||
    (route[0] < |d.entries| && IsLoadedDir(d.entries[route[0]])
      && LoadedAt(d.entries[route[0]].info.dir.value, route[1..]))
  }

  /** After `prune_to_depth(k)` a directory is loaded exactly when it was
    * loaded before and lies at most `k` levels down. */
  lemma {:induction false} PrunedLoadedAt(d: Directory, depthLimit: nat, route: seq<nat>)
    ensures LoadedAt(Pruned(d, depthLimit), route) <==> LoadedAt(d, route) && |route| <= depthLimit
    decreases |route|
  {
    if route != [] {
      var i := route[0];
      if i < |d.entries| && IsLoadedDir(d.entries[i]) && depthLimit > 0 {
        PrunedLoadedAt(d.entries[i].info.dir.value, depthLimit - 1, route[1..]);
      }
    }
  }

  /** Pruning to `k` and then to `j` is pruning to the smaller of the two. */
  lemma {:induction false} PruneTwice(d: Directory, k: nat, j: nat)
    ensures Pruned(Pruned(d, k), j) == Pruned(d, Min(j, k))
    decreases d
  {
    var once := Pruned(d, k);
    var twice := Pruned(once, j);
    var direct := Pruned(d, Min(j, k));
    forall i | 0 <= i < |d.entries|
      ensures twice.entries[i] == direct.entries[i]
    {
      var e := d.entries[i];
      assert twice.entries[i] == PrunedEntry(PrunedEntry(e, k), j);
      assert direct.entries[i] == PrunedEntry(e, Min(j, k));
      if IsLoadedDir(e) && k > 0 && j > 0 {
        PruneTwice(e.info.dir.value, k - 1, j - 1);
      }
    }
    assert twice.entries == direct.entries;
  }

  /** Pruning again to a depth at least as large changes nothing. */
  lemma PruneAgainDeeper(d: Directory, k: nat, j: nat)
    requires k <= j
    ensures Pruned(Pruned(d, k), j) == Pruned(d, k)
  {
    PruneTwice(d, k, j);
  }

  /** `parent/name` (or `name` alone below the root). */
  function ChildPath(parent: string, name: string): string {
    if parent == "" then name else parent + "/" + name
  }

  /** Every loaded sub-directory's path is its parent's path joined with its name. */
  predicate PathsConsistent(d: Directory)
    decreases d
  {
    forall i :: 0 <= i < |d.entries| ==> EntryPathsConsistent(d.relativePath, d.entries[i])
  }

  predicate EntryPathsConsistent(parent: string, e: DirectoryEntry)
    decreases e
  {
    IsLoadedDir(e) ==>
      e.info.dir.value.relativePath == ChildPath(parent, e.name) && PathsConsistent(e.info.dir.value)
  }

  /** No unloaded directory anywhere in the tree. */
  predicate FullyLoaded(d: Directory)
    decreases d
  {
    forall i :: 0 <= i < |d.entries| ==> EntryFullyLoaded(d.entries[i])
  }

  predicate EntryFullyLoaded(e: DirectoryEntry)
    decreases e
  {
    e.info != Dir(None) && (IsLoadedDir(e) ==> FullyLoaded(e.info.dir.value))
  }

  /** A file as the tree lists it: its path from the root, its metadata and
    * its two states. */
  datatype FileRecord = FileRecord(
    path: string, metadata: FileMetadata, changeState: ChangeState, conflictState: ConflictState)

  /** All files reachable through loaded directories, depth first in entry
    * order, each with its path built from its directory's path and its name. */
  function Files(d: Directory): seq<FileRecord>
    decreases d
  {
    EntriesFiles(d.relativePath, d.entries)
  }

  function EntriesFiles(parent: string, es: seq<DirectoryEntry>): seq<FileRecord>
    decreases es
  {
    if es == [] then []
    else EntriesFiles(parent, es[..|es| - 1]) + EntryFiles(parent, es[|es| - 1])
  }

  function EntryFiles(parent: string, e: DirectoryEntry): seq<FileRecord>
    decreases e
  {
    match e.info
    case File(metadata, change, conflict) => [FileRecord(ChildPath(parent, e.name), metadata, change, conflict)]
    case Dir(Some(d)) => Files(d)
    case Dir(None) => []
  }

  /** The files below one entry are among the files of the whole list. */
  lemma {:induction false} EntryFilesIn(parent: string, es: seq<DirectoryEntry>, i: nat)
    requires i < |es|
    ensures forall f :: f in EntryFiles(parent, es[i]) ==> f in EntriesFiles(parent, es)
    decreases |es|
  {
    var n := |es| - 1;
    if i < n {
      EntryFilesIn(parent, es[..n], i);
      assert es[..n][i] == es[i];
    }
  }

  /** The paths of `d` and of every directory loaded below it, each counted as
    * often as it occurs in the tree. */
  function Dirs(d: Directory): multiset<string>
    decreases d
  {
    multiset{d.relativePath} + EntriesDirs(d.entries)
  }

  function EntriesDirs(es: seq<DirectoryEntry>): multiset<string>
    decreases es
  {
    if es == [] then multiset{}
    else EntriesDirs(es[..|es| - 1]) + EntryDirs(es[|es| - 1])
  }

  function EntryDirs(e: DirectoryEntry): multiset<string>
    decreases e
  {
    match e.info
    case Dir(Some(d)) => Dirs(d)
    case _ => multiset{}
  }

  /** `push_entry` adds the directories of the new entry and no others. */
  lemma PushEntryDirs(d: Directory, e: DirectoryEntry)
    ensures Dirs(PushEntry(d, e)) == Dirs(d) + EntryDirs(e)
  {
    assert PushEntry(d, e).entries[..|d.entries|] == d.entries;
  }

  /** The directories below one entry are among those of the whole list. */
  lemma {:induction false} EntryDirsIn(es: seq<DirectoryEntry>, i: nat)
    requires i < |es|
    ensures EntryDirs(es[i]) <= EntriesDirs(es)
    decreases |es|
  {
    var n := |es| - 1;
    if i < n {
      EntryDirsIn(es[..n], i);
      assert es[..n][i] == es[i];
    }
  }

  /** Two different entries contribute their directories separately. */
  lemma {:induction false} EntryDirsPairIn(es: seq<DirectoryEntry>, i: nat, j: nat)
    requires i < j < |es|
    ensures EntryDirs(es[i]) + EntryDirs(es[j]) <= EntriesDirs(es)
    decreases |es|
  {
    var n := |es| - 1;
    assert es[..n][i] == es[i];
    if j < n {
      EntryDirsPairIn(es[..n], i, j);
      assert es[..n][j] == es[j];
    } else {
      EntryDirsIn(es[..n], i);
    }
  }

  /** No directory of the tree has two loaded sub-directories of one name. */
  predicate UniqueDirectoryNames(d: Directory)
    decreases d
  {
    && (forall i, j :: 0 <= i < j < |d.entries| && IsLoadedDir(d.entries[i]) && IsLoadedDir(d.entries[j]) ==>
          d.entries[i].name != d.entries[j].name)
    && forall i :: 0 <= i < |d.entries| && IsLoadedDir(d.entries[i]) ==> UniqueDirectoryNames(d.entries[i].info.dir.value)
  }

  /** Two loaded sub-directories of one name have one path, counted twice. */
  lemma SameNameCountedTwice(d: Directory, i: nat, j: nat)
    requires PathsConsistent(d) && i < j < |d.entries|
    requires IsLoadedDir(d.entries[i]) && IsLoadedDir(d.entries[j])
    requires d.entries[i].name == d.entries[j].name
    ensures Dirs(d)[d.entries[i].info.dir.value.relativePath] >= 2
  {
    var es := d.entries;
    var q := es[i].info.dir.value.relativePath;
    assert EntryPathsConsistent(d.relativePath, es[i]) && EntryPathsConsistent(d.relativePath, es[j]);
    assert es[j].info.dir.value.relativePath == q;
    EntryDirsPairIn(es, i, j);
    assert (EntryDirs(es[i]) + EntryDirs(es[j]))[q] >= 2;
  }

  /** In a tree whose paths follow its names, a path that occurs only once
    * leaves no room for two sibling directories of one name. */
  lemma {:induction false} DirsOnceUniqueNames(d: Directory)
    requires PathsConsistent(d)
    requires forall q :: Dirs(d)[q] <= 1
    ensures UniqueDirectoryNames(d)
    decreases d
  {
    var es := d.entries;
    forall i, j | 0 <= i < j < |es| && IsLoadedDir(es[i]) && IsLoadedDir(es[j])
      ensures es[i].name != es[j].name
    {
      if es[i].name == es[j].name {
        SameNameCountedTwice(d, i, j);
      }
    }
    forall i | 0 <= i < |es| && IsLoadedDir(es[i])
      ensures UniqueDirectoryNames(es[i].info.dir.value)
    {
      var sub := es[i].info.dir.value;
      assert EntryPathsConsistent(d.relativePath, es[i]);
      EntryDirsIn(es, i);
      assert forall q :: Dirs(sub)[q] <= Dirs(d)[q];
      DirsOnceUniqueNames(sub);
    }
  }

  /** The three tree invariants the builder establishes. */
  predicate WellBuilt(d: Directory) {
    Aggregated(d) && FullyLoaded(d) && PathsConsistent(d)
  }

  /** `push_entry` keeps the tree invariants when the new entry keeps them,
    * and adds the entry's files at the end of the file list. */
  lemma PushEntryKeepsWellBuilt(d: Directory, e: DirectoryEntry)
    requires WellBuilt(d)
    requires EntryAggregated(e) && EntryFullyLoaded(e) && EntryPathsConsistent(d.relativePath, e)
    ensures WellBuilt(PushEntry(d, e))
    ensures Files(PushEntry(d, e)) == Files(d) + EntryFiles(d.relativePath, e)
  {
    var r := PushEntry(d, e);
    assert r.entries[..|d.entries|] == d.entries;
    PushEntryKeepsAggregated(d, e);
    PushEntryKeepsLoaded(d, e);
    PushEntryKeepsPaths(d, e);
  }

  lemma PushEntryKeepsAggregated(d: Directory, e: DirectoryEntry)
    requires Aggregated(d) && EntryAggregated(e)
    ensures Aggregated(PushEntry(d, e))
  {
    var r := PushEntry(d, e);
    forall i | 0 <= i < |r.entries|
      ensures EntryAggregated(r.entries[i])
    {
      if i < |d.entries| {
        assert r.entries[i] == d.entries[i];
      }
    }
  }

  lemma PushEntryKeepsLoaded(d: Directory, e: DirectoryEntry)
    requires FullyLoaded(d) && EntryFullyLoaded(e)
    ensures FullyLoaded(PushEntry(d, e))
  {
    var r := PushEntry(d, e);
    forall i | 0 <= i < |r.entries|
      ensures EntryFullyLoaded(r.entries[i])
    {
      if i < |d.entries| {
        assert r.entries[i] == d.entries[i];
      }
    }
  }

  lemma PushEntryKeepsPaths(d: Directory, e: DirectoryEntry)
    requires PathsConsistent(d) && EntryPathsConsistent(d.relativePath, e)
    ensures PathsConsistent(PushEntry(d, e))
  {
    var r := PushEntry(d, e);
    forall i | 0 <= i < |r.entries|
      ensures EntryPathsConsistent(r.relativePath, r.entries[i])
    {
      if i < |d.entries| {
        assert r.entries[i] == d.entries[i];
      }
    }
  }
}
