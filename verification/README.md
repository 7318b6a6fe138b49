# DupDup store: directory lists and breadth-first file enumeration

DupDup is a desktop duplicate-file finder. Its front-end store (`src/store.js`)
holds three reactive arrays: the include directories (roots to scan), the
exclude directories, and the list of files found by the last scan. This
project models that store in Dafny:

- **Directory lists.** `addIncludeDirs` and `addExcludeDirs` rebuild their list
  by passing the current paths, then the added ones, through a JavaScript
  `Set`. That is a de-duplicating append which keeps the first occurrence of
  every path, because a `Set` iterates in insertion order. `removeIncludeDir` and `removeExcludeDir` filter out every
  entry equal to the argument. Module `DirList` defines these operations on
  `seq<string>`: `Dedup` inserts elements into a set one by one and `Remove`
  filters. Module `Store` applies them to the store record.
- **`process`.** It clears `files`, copies the include directories into a work
  queue, and repeatedly takes the directory at the front and lists it with
  `readDir`. Files are appended to `files`; sub-directories go to the back of
  the queue. Module `FsTree` models the file system as a finite tree:
  `Entry = File(name) | Dir(name, children)`. It treats path joining as an
  uninterpreted function parameter `join`, and gives two independent reference
  enumerations. `LevelOrder` lists level by level. `Reachable` lists depth
  first, straight from the tree. `Store.Process` is the queue loop itself. Its
  termination measure is the number of tree nodes still queued. Its loop
  invariant (`BfsInv`) says the queue is the rest of the current level
  followed by the sub-directories already discovered, and that the emitted
  files plus what the queue will emit make up the level order of the roots.

Listing an include directory is a lookup in a map `fs` from path to listing. A
root missing from the map is a directory `readDir` rejects. The source then
rejects the whole `process` call, with `files` already holding what was pushed
before. `Process` returns `ok = false` and exactly that partial list. A
sub-directory is listed from the tree node it came from.

`process` scans breadth first and never reads the exclude list.

## Model

| member | source | states |
|---|---|---|
| DirList.Dedup | src/store.js:12 | the rebuilt list has no duplicate entries and contains exactly the paths of its input |
| DirList.DedupFirstOccurrenceOrder | src/store.js:12 | the rebuilt list orders paths by their first occurrence in the input, which is the iteration order of a JavaScript `Set` |
| DirList.DedupOfNoDup | src/store.js:12 | a list that already has no duplicates comes back unchanged |
| DirList.DedupPrefix | src/store.js:12 | appending more paths before de-duplicating never reorders or drops what the shorter input produced |
| DirList.DedupAbsorb | src/store.js:12 | de-duplicating an already de-duplicated prefix again gives the same list as de-duplicating once |
| DirList.DedupPresent | src/store.js:12 | appending paths that are all present already leaves the de-duplicated list unchanged |
| DirList.Remove | src/store.js:16 | the result has no occurrence of the removed path; every other path is kept; removing an absent path returns the list unchanged |
| DirList.RemoveCounts | src/store.js:16 | removal drops every copy of the path and keeps every copy of every other path (multiset equality) |
| DirList.RemoveKeepsOrder | src/store.js:16 | the remaining entries keep their relative order: the result is a subsequence of the input |
| DirList.RemoveNoDup | src/store.js:16 | removal keeps a duplicate-free list duplicate-free |
| DirList.RemoveAppend | src/store.js:16 | filtering a concatenation filters each part separately |
| DirList.RemoveDedup | src/store.js:11-17 | removing a path commutes with the de-duplicating rebuild |
| Store.Initial | src/store.js:7-9 | a new store has three empty arrays, so both directory lists start duplicate-free |
| Store.AddDirs | src/store.js:12 | after an add, the list has no duplicates and its paths are exactly the old ones plus the added ones |
| Store.AddDirsKeepsOrder | src/store.js:12 | a duplicate-free old list is a prefix of the result; the new paths follow in order of first occurrence in the added batch |
| Store.AddDirsIdempotent | src/store.js:12 | adding the same batch twice gives the same list as adding it once |
| Store.AddDirsCompose | src/store.js:12 | adding two batches one after the other equals adding their concatenation |
| Store.AddThenRemove | src/store.js:11-17 | on a duplicate-free list, removing a path that was just added (and was absent before) restores the list |
| Store.AddIncludeDirs | src/store.js:11-13 | the include list becomes the de-duplicated union of the old list and the batch; a duplicate-free include list stays a prefix of the result; the exclude list and files are unchanged |
| Store.RemoveIncludeDir | src/store.js:15-17 | the include list loses exactly the given path; removing an absent path changes nothing; the other fields are unchanged; the store stays duplicate-free |
| Store.AddExcludeDirs | src/store.js:19-21 | the exclude list becomes the de-duplicated union of the old list and the batch; a duplicate-free exclude list stays a prefix of the result; the include list and files are unchanged |
| Store.RemoveExcludeDir | src/store.js:23-25 | the exclude list loses exactly the given path; removing an absent path changes nothing; the other fields are unchanged; the store stays duplicate-free |
| Store.Roots | src/store.js:43 | the initial queue is a copy of the include list, one queued directory per path in the same order; it is listable exactly when `readDir` succeeds on that path, and then it carries the listing `readDir` returns for that path |
| Store.ListEntries | src/store.js:47-55 | one directory's listing yields the joined paths of its files in listing order, and its sub-directories in listing order for the back of the queue |
| Store.Process | src/store.js:41-57 | include and exclude lists are untouched. The result is independent of the previous `files`. It succeeds exactly when every include directory can be listed. On success `files` is the breadth-first enumeration and holds exactly the reachable files as a multiset. On a rejection `files` holds the files of the include directories listed before the failing one |
| Store.RejectedRoot | src/store.js:45-46 | a rejection comes only from the first include directory that cannot be listed; the files emitted by then are the direct files of the include directories before it |
| FsTree.EntriesFiles | src/store.js:47-55 | a path is emitted for a listing exactly when some non-directory entry joins to it |
| FsTree.LevelSubDirs | src/store.js:44-50 | the directories queued from one level are all listable and hold strictly fewer tree nodes than the level, so the queue loop terminates on a finite tree |
| FsTree.QueueStep | src/store.js:44-50 | replacing the front directory by its sub-directories strictly shrinks the number of tree nodes still queued |
| FsTree.LevelFilesBlock | src/store.js:45-54 | within one level, a directory's files form one contiguous block in listing order, after those of every directory queued before it |
| FsTree.LevelOrderIsReachable | src/store.js:44-56 | the breadth-first enumeration emits exactly the non-directory entries reachable from the roots, each as often as the tree holds it |

## Left out

- `processDir` (src/store.js:27-39) is not modelled. Nothing calls it, and it recurses without `await`, so its result depends on asynchronous scheduling.
- `console.log` output and `async`/`await` scheduling are left out. `process` is modelled as one sequential run.
- Store.Process: only an include directory can fail to list. A sub-directory is listed from its tree node, so a `readDir` failure below a root (for example a directory removed mid-scan) is not modelled.
- Store.Process: `join` is an arbitrary function, and its failures are not modelled. Distinct entries may join to the same path; the model keeps both copies, as the source does.
- The duplicate `addExcludeDirs`/`removeExcludeDir` keys in the returned object (src/store.js:67-68) do not change behaviour and are not modelled.
- The Tauri back end (src-tauri/src/lib.rs) is not part of this model. `calculate_file_hash` is file I/O around an external SHA-256 library. `move_to_recycle_bin` is Windows shell FFI. `greet` and `run` only format text and wire up the application.
- The UI routing and bootstrapping (src/router.js, src/main.js) are not part of this model.
- Exclusion matching, category classification, size and hash grouping, statistics and deletion do not exist in `src/store.js`, so they are not modelled.
