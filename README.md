# fxv-api-rs core in Dafny

A model of the path, tree, tree-builder and resolver core of the FlexVault
workspace API client (`fxv-api-rs`), with proofs of what that code promises.

- **Relative paths** (`src/common.rs`). `RelativePath` is a string with no
  backslash and no leading or trailing `/`. It is built by `new`, which first
  replaces every `\` with `/`. The component iterator `RelativePathComponents`
  is a class with the path and a mutable byte index. `next`, `as_accumulated_str`
  and `is_at_last_entry` work on that index. The total order compares component
  sequences, not raw strings. `common_ancestor` walks two iterators in lockstep.
  Indexes are character positions here. Every index `next` produces falls
  just after a `/` or one past the end, and there a character position and a
  byte position name the same place: both separators are ASCII, and UTF-8
  keeps code-point order. The one place this does not hold is the byte 1
  where `components_starting_at_common_ancestor` starts when the ancestor is
  the root. For that index the model counts UTF-8 widths (RFC 3629,
  section 3) in the "Byte offsets" section of `common.dfy`.
- **Directory tree** (`src/v1/model.rs`). A `Directory` is a value: a path, its
  entries, and cached sets of conflict states and change states. An entry is
  a file or a directory, and the directory may be unloaded (`Dir(None)`).
  `new` folds the entries' contributions into the cached sets. `push_entry`
  appends an entry and adds its contribution. `prune_to_depth` unloads every
  sub-directory more than a given number of levels down.
- **Tree builder** (`src/tools/mock_data_generator.rs`). `DirStack` is a class
  around a sequence of open directory frames. The file-system walk is a
  parameter: a sequence of `WalkEntry(path, isDir, metadata)` values, sorted by
  the path order above. For each entry the builder:
  1. pops frames down to the common ancestor;
  2. pushes a frame for each missing parent directory;
  3. appends the entry to the top frame if it is a file.
  `finalize` pops everything into the root. The proofs show the result is
  well built (aggregated, fully loaded, paths consistent). They also show its
  depth-first file list is exactly the files of the input, in order, each
  with its metadata and the default states. Its directories are exactly the
  root and the proper ancestors of the entries, each once, so no two loaded
  sibling directories share a name. A directory entry of the walk adds no
  directory of its own unless something lies below it, because a frame is
  pushed only for a path's parents.
- **Resolver** (`src/v1/mock_client.rs`). `fetch_directory` walks the path by
  entry name. It is not found at a missing name or a file. Meeting an unloaded
  directory is a panic in the Rust code; here it is the outcome
  `UnloadedDirectory`. Otherwise the resolver returns the directory reached,
  pruned when a depth limit is given. It is a method specified by the function
  `Fetch`, and it does not modify the stored tree.

For the empty path the code returns the whole tree, unpruned, whatever the
limit (`src/v1/mock_client.rs:74-75`), and so does the model
(`MockClient.FetchRootIgnoresDepthLimit`).

`components_starting_at_common_ancestor` starts the iterator at `index + 1`
(`src/common.rs:94`). When the common ancestor is the root, `index` is 0, so
the iterator starts at byte 1 of the path, which is inside the first
component. If the first character is ASCII, the first `next` returns the first
component without its first character. It still moves to where the second
component begins, so the builder is unaffected, because it reads only
`is_at_last_entry` and `as_accumulated_str` (`Common.StartingPastRoot`). If
the first character takes two or more bytes, byte 1 is not a character
boundary, and the slice in `next` (`src/common.rs:185`) panics (see
"## Findings"). The model's builder uses the evidently intended start
(`Common.ComponentsAfterCommonAncestor`): where the first component not shared
begins, which is index 0 below the root.

Files: `wrappers.dfy` (Option, Result), `common.dfy`, `common_order.dfy`,
`model.dfy`, `mock_data_generator.dfy`, `mock_client.dfy`.

## Model

| member | source | states |
|---|---|---|
| Common.NormalizeSeparators | src/common.rs:111-114 | Every `\` becomes `/`; every other character and the length are unchanged |
| Common.New | src/common.rs:38-46 | Fails exactly when the normalised string starts or ends with `/`, with an error that carries the normalised string; otherwise yields the normalised string |
| Common.NewOfRelativePath | src/common.rs:38-46 | A string that is already a valid relative path comes back unchanged |
| Common.ComponentsOf | src/common.rs:177-193 | The components split on `/` contain no separator, and there are none exactly when the path is empty |
| Common.JoinComponents | src/common.rs:177-193 | Joining a path's components with `/` gives back the path |
| Common.ComponentsOfJoin | src/common.rs:177-193 | Splitting a join of separator-free components gives back those components |
| Common.FileName | src/common.rs:53-62 | None exactly for the empty path; otherwise a non-empty, separator-free suffix of the path that is preceded by `/` or starts the path |
| Common.FileNameIsLastComponent | src/common.rs:53-62 | The file name of a non-empty path is its last component |
| Common.IsEmpty | src/common.rs:72-75 | True exactly when the path has no components |
| Common.RelativePathComponents.constructor | src/common.rs:154-159 | An iterator over the given string at the given index |
| Common.RelativePathComponents.AsFullStr | src/common.rs:162-165 | The whole string: the accumulated string is a prefix of it, and `next` leaves it as it is |
| Common.RelativePathComponents.AsAccumulatedStr | src/common.rs:167-170 | A prefix of the full string |
| Common.RelativePathComponents.Next | src/common.rs:180-192 | The component returned and the new index are one step of the split from the old index; the full string is unchanged |
| Common.Step | src/common.rs:180-192 | On the bare string and index, `next` gives None exactly at or past the end, without moving; otherwise a separator-free component and an index that moves forward, at most one past the end |
| Common.Accumulated | src/common.rs:167-170 | `as_accumulated_str` on the bare state is a prefix of the string |
| Common.Components | src/common.rs:64-70 | A fresh iterator over the path at index 0 |
| Common.StepFrom | src/common.rs:180-192 | From where component k starts, `next` returns component k and moves to where component k+1 starts; after the last component it returns None and stays put |
| Common.StepExhausted | src/common.rs:180-195 | Once every component is consumed, `next` returns None and does not move |
| Common.RemainingFromOffset | src/common.rs:177-195 | The components still returned from the start of component k are exactly the components from k on |
| Common.AccumulatedAtOffset | src/common.rs:167-170 | At the start of component m, the accumulated string is the first m components joined by `/` |
| Common.AccumulatedAfterSteps | src/common.rs:161-192 | After k calls to `next`, the accumulated string is the first k components joined, and the full path once exhausted |
| Common.LastEntryAtOffset | src/common.rs:172-174 | After the m-th component (m >= 1), `is_at_last_entry` holds exactly when m is the last component |
| Common.CommonPrefixLength | src/common.rs:99-109 | The length of the longest shared prefix of two component sequences: they agree up to it and differ just after it |
| Common.CommonAncestorIsLongestSharedPrefix | src/common.rs:77-85 | The common ancestor is the longest shared whole-component prefix, a string prefix of both paths, and symmetric |
| Common.CommonAncestorOfItself | src/common.rs:77-85 | A path's common ancestor with itself is the path |
| Common.CommonAncestorSeparatorIndex | src/common.rs:98-109 | The lockstep loop returns the length of the common-ancestor string |
| Common.CommonAncestor | src/common.rs:80-85 | A fresh iterator at index 0 over the common-ancestor string |
| Common.ComponentsStartingAtCommonAncestor | src/common.rs:90-96 | A fresh iterator over the whole path at one past the ancestor's separator index |
| Common.StartingAtCommonAncestor | src/common.rs:87-96 | That iterator's accumulated string is the common ancestor; for a non-empty ancestor it returns exactly the components not shared |
| Common.StartingPastRoot | src/common.rs:90-96 | With the root as ancestor, the iterator at index 1 returns the first component without its first character (nothing for a one-character path) and moves to where the second component starts |
| Common.StartingPastRootBytes | src/common.rs:185-188 | `next` at byte 1 panics exactly when the first character takes more than one byte; when it is ASCII, byte 1 is character 1 |
| Common.Utf8Width | src/common.rs:185-188 | A character takes 1 to 4 bytes in UTF-8, and 1 exactly when it is ASCII |
| Common.ByteLenAppend | src/common.rs:185-188 | The byte length of a concatenation is the sum of the byte lengths |
| Common.FirstByteBoundary | src/common.rs:185-188 | The first character's bytes are its width, and byte 1 is a character boundary exactly when that width is 1 |
| Common.StartingAtCommonAncestorBytes | src/common.rs:90-96 | The start byte is the byte place of the first unshared component when there is one, past the end when every component is shared, and 1 for the root ancestor |
| Common.ComponentsAfterCommonAncestor | src/common.rs:90-96 | A fresh iterator over the whole path at the start of the first unshared component, index 0 for the root ancestor |
| Common.AfterCommonAncestor | src/common.rs:87-96 | From that start, the accumulated string is the common ancestor, the iterator returns exactly the unshared components, and the start is a character boundary, so `next` cannot panic there |
| Common.RelativePathComponents.IsAtLastEntry | src/common.rs:172-174 | True exactly when the next `next` returns None |
| Common.EqualsComponents | src/common.rs:129-133 | For an iterator over a valid path, equality holds exactly when the two paths have the same components |
| CommonOrder.CompareStr | src/common.rs:117-121 | Rust `str` order on one component: Equal exactly for equal strings |
| CommonOrder.CompareComponents | src/common.rs:117-121 | Lexicographic order on component sequences: Equal exactly for equal sequences |
| CommonOrder.ProperPrefixIsLess | src/common.rs:117-121 | A proper prefix of a component sequence sorts before it |
| CommonOrder.Cmp | src/common.rs:117-121 | Compares the component sequences; Equal exactly when the two paths are the same string |
| CommonOrder.EqualsComponentsIsCmpEqual | src/common.rs:117-133 | `==` against an iterator agrees with `cmp`: it holds exactly when `cmp` gives Equal |
| CommonOrder.CmpFlip | src/common.rs:117-127 | Swapping the arguments flips the result |
| CommonOrder.CmpTransitive | src/common.rs:117-127 | The order is transitive, strictly so when either step is strict |
| CommonOrder.PrefixBetween | src/common.rs:117-121 | A component sequence that sorts between two sequences starting with the same prefix starts with that prefix too |
| CommonOrder.AncestorIsLess | src/common.rs:117-121 | An ancestor sorts before its descendants |
| CommonOrder.ComponentOrderIsNotStringOrder | src/common.rs:301-315 | `"a/b!/c"` sorts after `"a/b/c"`, although it is the smaller raw string |
| CommonOrder.AncestorSortsFirstExample | src/common.rs:290-299 | `"a/b/c"` sorts before `"a/b/c/d"` |
| CommonOrder.SiblingOrderExample | src/common.rs:290-299 | `"a/b/c/d"` sorts before `"a/b/d"` |
| CommonOrder.SortExampleIsSorted | src/common.rs:290-299 | `["a/b/c", "a/b/c", "a/b/c/d", "a/b/d"]` is sorted by `cmp` |
| CommonOrder.SortExampleIsPermutation | src/common.rs:290-299 | and holds the same paths as `["a/b/c/d", "a/b/c", "a/b/d", "a/b/c"]` |
| Model.AggregateStatesInto | src/v1/model.rs:102-124 | Adds the entry's contribution and never removes anything: a file adds its own states, a loaded directory its cached sets, an unloaded one nothing |
| Model.StatesUnionConflicts | src/v1/model.rs:30-38 | A conflict state is in the union exactly when some entry contributes it |
| Model.StatesUnionChanges | src/v1/model.rs:30-38 | A change state is in the union exactly when some entry contributes it |
| Model.StatesUnionCons | src/v1/model.rs:32-38 | The union is the first entry's contribution joined with the union of the rest |
| Model.FoldStates | src/v1/model.rs:32-38 | The fold over the entries is the start value joined with the union of their contributions |
| Model.NewDirectory | src/v1/model.rs:30-45 | Keeps the path and entries, and caches exactly the union of the entries' contributions |
| Model.PushEntry | src/v1/model.rs:57-61 | Appends at the end and keeps the path; the sets only grow; from consistent sets it equals `new` over the extended list |
| Model.StateAggregationExample | src/v1/model.rs:208-243 | The test tree's root holds Added, Modified, None and Unresolved, but not Deleted or Resolved |
| Model.PushEntryExample | src/v1/model.rs:245-253 | Building that root with `push_entry` gives the same directory as `new` |
| Model.AggregatedIsLeafStates | src/v1/model.rs:22-25 | In a tree built by `new` and `push_entry`, a directory's cached sets are the states of the files loaded below it |
| Model.Pruned | src/v1/model.rs:64-75 | Pruning keeps the path, the cached sets, the number and names of the entries, and every file entry |
| Model.PrunedEntries | src/v1/model.rs:64-75 | Pruning keeps the number of entries and prunes each one in place |
| Model.PruneToDepth | src/v1/model.rs:64-75 | The loop over the entries yields the pruned directory |
| Model.PrunedSameShape | src/v1/model.rs:64-75 | Pruning keeps, at every level, the path, the cached sets, the number, names and order of entries, and every file |
| Model.PruneToZero | src/v1/model.rs:359-366 | Depth 0 turns every immediate sub-directory into an unloaded entry of the same name and keeps every file |
| Model.PrunedLoadedAt | src/v1/model.rs:317-338 | After pruning to k, a directory is loaded exactly when it was loaded before and is at most k levels down |
| Model.PruneTwice | src/v1/model.rs:340-366 | Pruning to k and then to j is pruning to the smaller of the two |
| Model.PruneAgainDeeper | src/v1/model.rs:340-366 | Pruning again to a limit no smaller than before changes nothing |
| Model.PushEntryDirs | src/v1/model.rs:57-61 | Appending an entry adds exactly the directories loaded in it to the directory's paths |
| Model.DirsOnceUniqueNames | src/v1/model.rs:17-26 | In a tree with consistent paths where every directory path occurs once, no two loaded sibling directories share a name, at any level |
| Model.PushEntryKeepsWellBuilt | src/v1/model.rs:57-61 | Appending a well-built entry keeps the directory well built and appends the entry's files to its file list |
| Model.PushEntryKeepsAggregated | src/v1/model.rs:57-61 | Appending keeps the cached sets equal to the union of the contributions |
| Model.PushEntryKeepsLoaded | src/v1/model.rs:57-61 | Appending a fully loaded entry keeps the directory fully loaded |
| Model.PushEntryKeepsPaths | src/v1/model.rs:57-61 | Appending an entry with consistent paths keeps the paths consistent |
| MockDataGenerator.DirStack.constructor | src/tools/mock_data_generator.rs:57-61 | The stack is one empty root frame with path `""` |
| MockDataGenerator.InitialStack | src/tools/mock_data_generator.rs:57-61 | The initial stack satisfies the builder invariant for no components and holds no files |
| MockDataGenerator.DirStack.Last | src/tools/mock_data_generator.rs:63-67 | The top frame, whose path is the join of the components the frames follow |
| MockDataGenerator.TopFrames | src/tools/mock_data_generator.rs:63-67 | In a stack of frames along components cs, the top frame's path is the join of cs |
| MockDataGenerator.DirStack.PopTail | src/tools/mock_data_generator.rs:75-84 | The new stack is the old one with the top removed and attached to the frame below, named by its file name |
| MockDataGenerator.PoppedStack | src/tools/mock_data_generator.rs:75-84 | `pop_tail` leaves one frame fewer, and none from an empty stack |
| MockDataGenerator.PoppedStackIs | src/tools/mock_data_generator.rs:75-84 | The lower frames are untouched, and the new top is the old second frame with the old top appended as a loaded directory |
| MockDataGenerator.PopKeepsPathsAboveRoot | src/tools/mock_data_generator.rs:75-84 | Every remaining frame keeps its path |
| MockDataGenerator.PopKeepsFrames | src/tools/mock_data_generator.rs:75-84 | Popping keeps each frame one component below the next and every frame well built; the stack's file list is unchanged |
| MockDataGenerator.DirStack.PushDirectory | src/tools/mock_data_generator.rs:86-88 | Adds a new empty frame with the given path on top |
| MockDataGenerator.DirStack.PushFile | src/tools/mock_data_generator.rs:90-99 | Appends to the top frame a file with the metadata and the default Unchanged and None states |
| MockDataGenerator.Collapse | src/tools/mock_data_generator.rs:101-106 | Popping the stack down to one frame keeps the root frame's path |
| MockDataGenerator.DirStack.Finalize | src/tools/mock_data_generator.rs:101-106 | Returns the stack collapsed into its root frame and leaves the stack empty |
| MockDataGenerator.CollapseKeepsFrames | src/tools/mock_data_generator.rs:101-106 | The collapsed root is well built, has the root frame's path, and lists the stack's files in order |
| MockDataGenerator.PopKeepsDirs | src/tools/mock_data_generator.rs:75-84 | `pop_tail` keeps the stack's directory paths: the top frame moves into the frame below and is counted there |
| MockDataGenerator.PushedDirectoryDirs | src/tools/mock_data_generator.rs:86-88 | `push_directory` adds exactly its path to the stack's directory paths |
| MockDataGenerator.PushedFileDirs | src/tools/mock_data_generator.rs:90-99 | `push_file` leaves the stack's directory paths unchanged |
| MockDataGenerator.CollapseDirs | src/tools/mock_data_generator.rs:101-106 | The finalized root holds exactly the directory paths of the stack's frames and those loaded below them |
| MockDataGenerator.CollapseBuilderStack | src/tools/mock_data_generator.rs:101-106 | Finalizing an invariant stack gives a well-built root with path `""`, the stack's files and directories, and distinct sibling names when every directory path occurs once |
| MockDataGenerator.PopAlong | src/tools/mock_data_generator.rs:133-135 | Popping a stack of frames along components c1..cm leaves frames along c1..c(m-1) with the same file list |
| MockDataGenerator.PopFrame | src/tools/mock_data_generator.rs:133-135 | One turn of the pop loop drops the last component from the stack's frame paths; the stack's files and directory paths are unchanged |
| MockDataGenerator.CommonAncestorOfFrames | src/tools/mock_data_generator.rs:130-132 | When the entry is not an ancestor of the top path, the common ancestor is the first l frame components, with l shorter than the entry |
| MockDataGenerator.SortedNotAncestor | src/tools/mock_data_generator.rs:115-135 | In sorted input, no later entry is an ancestor of an earlier entry's parent |
| MockDataGenerator.PopToCommonAncestor | src/tools/mock_data_generator.rs:129-135 | Pops until the top frame's path is the common ancestor; the file list and the directory paths are unchanged |
| MockDataGenerator.MissingStep | src/tools/mock_data_generator.rs:139-141 | Each further `next` moves one component on; it returns None exactly after the last |
| MockDataGenerator.JoinPrefixIsRelativePath | src/tools/mock_data_generator.rs:146-147 | Every accumulated prefix is a valid relative path, so that `expect` never fails |
| MockDataGenerator.PushAlong | src/tools/mock_data_generator.rs:146-148 | Pushing the next accumulated prefix extends the frames by one component and keeps the file list |
| MockDataGenerator.PushUnlessLast | src/tools/mock_data_generator.rs:140-149 | Pushes a frame for the component just read unless it is the last |
| MockDataGenerator.MissingIteration | src/tools/mock_data_generator.rs:139-150 | One turn of the missing-directory loop: the push, then `next`, which returns None exactly after the last component |
| MockDataGenerator.PushMissingDirectories | src/tools/mock_data_generator.rs:137-150 | From frames for the components shared with the top frame, leaves one frame per component of the entry's parent and the file list unchanged; the new directory paths are exactly the entry's proper ancestors past the shared ones, one each |
| MockDataGenerator.PushFileStep | src/tools/mock_data_generator.rs:152-168 | Pushing a file at its parent frame appends exactly its record to the stack's file list: its path, its metadata, Unchanged and NoConflict |
| MockDataGenerator.PushedFile | src/tools/mock_data_generator.rs:90-99 | Only the top frame changes: it keeps its path and gains at the end a file entry with the metadata and the default states |
| MockDataGenerator.PushFileAlong | src/tools/mock_data_generator.rs:90-99 | Appending a file to the top frame keeps the builder invariant and appends the file's record under the top frame's path |
| MockDataGenerator.ProcessEntry | src/tools/mock_data_generator.rs:115-168 | After an entry, the frames are its parent's components, and its record (path, metadata, default states) is appended to the file list if it is a file; the directory paths gain exactly the entry's proper ancestors deeper than what it shares with the previous parent |
| MockDataGenerator.SortedBefore | src/tools/mock_data_generator.rs:110 | In a sorted walk every entry sorts no later than every entry after it |
| MockDataGenerator.NewAncestorUnseen | src/tools/mock_data_generator.rs:129-150 | A proper ancestor of an entry deeper than what it shares with the previous entry's parent is no ancestor of any earlier entry |
| MockDataGenerator.SharedAncestorsSeen | src/tools/mock_data_generator.rs:129-135 | The ancestors an entry shares with the previous entry's parent are already ancestors of earlier entries |
| MockDataGenerator.NewAncestorsUnseen | src/tools/mock_data_generator.rs:137-150 | The deeper ancestors of an entry are disjoint from the directories the earlier entries imply |
| MockDataGenerator.WalkDirsStep | src/tools/mock_data_generator.rs:129-150 | Each entry adds to the walk's directories exactly its proper ancestors deeper than what it shares with the previous parent, one each |
| MockDataGenerator.WalkFilesPrefix | src/tools/mock_data_generator.rs:190-201 | The walk's file list grows by the entry's record exactly when the entry is a file |
| MockDataGenerator.FirstEntryPanicsExample | src/tools/mock_data_generator.rs:138-139 | The one-entry walk `é.txt` is valid, shares nothing with the root path, and `next` panics at the start byte the Rust code uses |
| MockDataGenerator.GenerateDirectoryTree | src/tools/mock_data_generator.rs:109-172 | The result is the root, well built, and its depth-first file list is exactly the input's files in order, each with its metadata, Unchanged and NoConflict; its directories are exactly the root and the proper ancestors of the entries, each once, and no two loaded sibling directories share a name |
| MockClient.FindEntry | src/v1/mock_client.rs:80-81 | The index of the first entry with that name, or None when no entry has it |
| MockClient.StepInto | src/v1/mock_client.rs:81-99 | Decided by the first entry with the name: none or a file gives NotFound, an unloaded directory gives UnloadedDirectory, a loaded directory is entered; what it enters holds only files of the current directory |
| MockClient.Resolve | src/v1/mock_client.rs:77-100 | The directory the walk reaches is part of the start directory: all its files are files of the start directory |
| MockClient.ResolveDescends | src/v1/mock_client.rs:81-86 | When the first entry named by the next component is a loaded directory, one more component of the walk reaches it |
| MockClient.FetchStopsAtFile | src/v1/mock_client.rs:91-94 | When the first entry named by a component of the path is a file, the fetch finds nothing |
| MockClient.FetchStopsAtMissingName | src/v1/mock_client.rs:96-99 | When no entry has a component's name, the fetch finds nothing |
| MockClient.Fetch | src/v1/mock_client.rs:67-110 | The empty path gives the whole tree; a directory fetched without a limit holds only files of the stored tree |
| MockClient.MockWorkspaceApi.constructor | src/v1/mock_client.rs:35-40 | The stored tree is an empty root |
| MockClient.Enter | src/v1/mock_client.rs:81-99 | One turn of the walk is one step into the named entry |
| MockClient.Walk | src/v1/mock_client.rs:77-100 | The loop reaches the directory at the path's components, or stops at the first missing name, file or unloaded directory |
| MockClient.MockWorkspaceApi.FetchDirectory | src/v1/mock_client.rs:67-110 | Returns the whole tree for the empty path; otherwise the walk's outcome, with a found directory pruned when a limit is given |
| MockClient.ResolveAppend | src/v1/mock_client.rs:79-100 | Walking a + b is walking a and then walking b from where a ends |
| MockClient.ResolveFullyLoaded | src/v1/mock_client.rs:87-90 | In a fully loaded tree the walk never meets an unloaded directory, and what it reaches is fully loaded |
| MockClient.FetchNeverPanics | src/v1/mock_client.rs:87-90 | On a fully loaded tree, fetching never takes the panic path |
| MockClient.ResolvePath | src/v1/mock_client.rs:160-172 | In a tree with consistent paths, the directory reached has the path of the components walked |
| MockClient.FetchedPath | src/v1/mock_client.rs:160-172 | A directory fetched from a consistent root has the requested path |
| MockClient.FetchWithDepthLimit | src/v1/mock_client.rs:102-106 | For a non-empty path, a limit changes only the found directory: same shape, loaded exactly at most `limit` levels down |
| MockClient.TestTreeShape | src/v1/mock_client.rs:120-143 | The test tree built with `push_entry` is root, `subdir`, `nested` and one file |
| MockClient.FetchMissingExample | src/v1/mock_client.rs:154-158 | `"missing/path"` is not found |
| MockClient.FetchSubdirExample | src/v1/mock_client.rs:160-165 | `"subdir"` gives the sub-directory |
| MockClient.FetchNestedExample | src/v1/mock_client.rs:167-172 | `"subdir/nested"` gives the nested directory |
| MockClient.FetchFileExample | src/v1/mock_client.rs:174-181 | `"subdir/nested/file.txt"` is not found: a file is in the way |
| MockClient.FetchRootIgnoresDepthLimit | src/v1/mock_client.rs:74-75 | The empty path gives the whole tree even with limit 0, with a sub-directory still loaded that pruning to 0 would unload |

## Left out

- The random request delay, `tokio` sleep and `eprintln` of `fetch_directory` (src/v1/mock_client.rs:57-63, 72): timing and randomness. The latency range field is not modelled.
- Loading the tree from JSON (src/v1/mock_client.rs:42-55) and the JSON test (src/v1/mock_client.rs:185-211): these are serde and file I/O.
- `filter_string` of `DirectoryFetchOptions` (src/v1/client.rs:13-15): the mock server does not implement it.
- The `WalkDir` traversal, `entry.metadata()`, the `strip_prefix` and path conversion, and the `SystemTime`-to-milliseconds cast (src/tools/mock_data_generator.rs:110-121, 153-166): these are file-system I/O. The walk becomes the parameter `entries`, sorted by the path order. `WalkDir` with `sort_by_file_name` gives the same order: parents come first and siblings are sorted by name. Each entry's path must be non-empty with no empty component, as a walk produces.
- `main`, argument parsing and JSON output of the generator: these are command-line glue.
- `TryFrom<&Path>`, `OsPathConversionError`, `Display` and the serde derives: OS strings and formatting.
- `RelativePath::try_join` is not part of this model. The model tests' `collect_names` helper is replaced by the predicates `LoadedAt` and `SameShape` and the function `Files`.
- The deferred rejection of `.`, `..` and `//` (src/common.rs:229-240): as in the code, construction stays permissive.
- `DirStack.last_mut` (src/tools/mock_data_generator.rs:69-73) is not a separate member: `PopTail` and `PushFile` state the whole new stack, top frame included.
- Model.PushEntry: `push_entry` updates the directory in place. Directories are immutable values here, so it returns the updated value.
- Model.PruneToDepth: `prune_to_depth` rewrites the entries in place. The model returns the pruned value and does not capture aliasing.
- MockClient.MockWorkspaceApi.FetchDirectory: `clone` is implicit because directories are values. The stored tree is unchanged because the method modifies nothing.
- The panic in `fetch_directory` on an unloaded directory is the outcome `UnloadedDirectory`. The other panics and `expect`s of the builder are ruled out by proofs: `pop_tail` on the root frame, `finalize` on an empty stack, and an accumulated prefix that is not a valid path. The panic under "## Findings" is not.
- MockDataGenerator.PushMissingDirectories: starts the iterator where the first unshared component begins (`Common.ComponentsAfterCommonAncestor`). As written, the Rust code panics when the entry shares no component with the top frame and its first character is not ASCII.
- MockDataGenerator.ProcessEntry: uses the same corrected start, so the panic above is not one of its outcomes.
- MockDataGenerator.GenerateDirectoryTree: is proved for the corrected start. As written, the Rust code panics on a walk with a top-level entry whose first character is not ASCII (`MockDataGenerator.FirstEntryPanicsExample`).
- Integer widths: `depth_limit` is a `u32` and the file metadata are `u64`, both as bounded subset types. A string index (`usize`) is unbounded, and `saturating_sub` is written out.

## Findings

| source | as written | input that shows it | evidently intended | confidence | as-written member | corrected member |
|---|---|---|---|---|---|---|
| src/common.rs:90-96 | The iterator starts at byte `index + 1`, which is byte 1 when the common ancestor is the root; the generator's first `next` (src/tools/mock_data_generator.rs:138-139) slices the path from there | A walk whose first entry is the file `é.txt`: byte 1 is inside `é`, so `next` panics | Start where the first unshared component begins: byte 0 below the root, one past the ancestor's separator otherwise | not executed | MockDataGenerator.FirstEntryPanicsExample | Common.ComponentsAfterCommonAncestor |
