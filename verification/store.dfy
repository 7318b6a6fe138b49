/**
 The application store of src/store.js: the include and exclude directory
 lists, the list of found files, the four list mutators and `process`, the
 breadth-first enumeration of the files below the include directories.
 */
module Store {
  import opened DirList
  import opened FsTree

  /** The three reactive fields of the store. */
  datatype Store = Store(includeDirs: seq<Path>, excludeDirs: seq<Path>, files: seq<Path>)

  /** Both directory lists hold every path at most once. */
  predicate Valid(st: Store) {
    NoDup(st.includeDirs) && NoDup(st.excludeDirs)
  }

  /** A fresh store: every field starts as an empty array. */
  function Initial(): (st: Store)
    ensures Valid(st)
    ensures |st.includeDirs| == 0 && |st.excludeDirs| == 0 && |st.files| == 0
  {
    Store([], [], [])
  }

  /** The current paths, then the new paths of `added`, each path kept only at its first occurrence. */
  function AddDirs(current: seq<Path>, added: seq<Path>): (r: seq<Path>)
    ensures NoDup(r)
    ensures forall x :: x in r <==> x in current || x in added
  {
    Dedup(current + added)
  }

  /**
   Adding keeps a duplicate-free list as the prefix of the result, and the
   newly added paths follow in the order of their first occurrence in the batch.
   */
  lemma AddDirsKeepsOrder(current: seq<Path>, added: seq<Path>)
    requires NoDup(current)
    ensures current <= AddDirs(current, added)
    ensures forall i, j :: |current| <= i < j < |AddDirs(current, added)| ==>
              AddDirs(current, added)[i] in added && AddDirs(current, added)[j] in added &&
              FirstIndex(added, AddDirs(current, added)[i]) < FirstIndex(added, AddDirs(current, added)[j])
  {
    var r := AddDirs(current, added);
    DedupOfNoDup(current);
    DedupPrefix(current, added);
    DedupFirstOccurrenceOrder(current + added);
    forall i | |current| <= i < |r|
      ensures r[i] !in current && r[i] in added
      ensures FirstIndex(current + added, r[i]) == |current| + FirstIndex(added, r[i])
    {
      assert r[i] !in r[..|current|];
      FirstIndexAfter(current, added, r[i]);
    }
  }

  /** Adding the same batch a second time changes nothing. */
  lemma AddDirsIdempotent(current: seq<Path>, added: seq<Path>)
    ensures AddDirs(AddDirs(current, added), added) == AddDirs(current, added)
  {
    DedupAbsorb(current + added, added);
    assert current + added + added == (current + added) + added;
    DedupPresent(current + added, added);
  }

  /** Adding two batches one after the other is adding them together. */
  lemma AddDirsCompose(current: seq<Path>, a: seq<Path>, b: seq<Path>)
    ensures AddDirs(AddDirs(current, a), b) == AddDirs(current, a + b)
  {
    DedupAbsorb(current + a, b);
    assert current + a + b == current + (a + b);
  }

  /** Removing a path that was just added to a duplicate-free list that lacked it restores the list. */
  lemma AddThenRemove(current: seq<Path>, dir: Path)
    requires NoDup(current) && dir !in current
    ensures Remove(AddDirs(current, [dir]), dir) == current
  {
    RemoveDedup(current + [dir], dir);
    RemoveAppend(current, [dir], dir);
    assert Remove([dir], dir) == [];
    assert current + [] == current;
    DedupOfNoDup(current);
  }

  function AddIncludeDirs(st: Store, dirs: seq<Path>): (r: Store)
    ensures r.excludeDirs == st.excludeDirs && r.files == st.files
    ensures NoDup(r.includeDirs)
    ensures forall x :: x in r.includeDirs <==> x in st.includeDirs || x in dirs
    ensures Valid(st) ==> Valid(r)
    ensures Valid(st) ==> st.includeDirs <= r.includeDirs
  {
    var r := st.(includeDirs := AddDirs(st.includeDirs, dirs));
    if NoDup(st.includeDirs) then AddDirsKeepsOrder(st.includeDirs, dirs); r else r
  }

  function RemoveIncludeDir(st: Store, dir: Path): (r: Store)
    ensures r.excludeDirs == st.excludeDirs && r.files == st.files
    ensures forall x :: x in r.includeDirs <==> x in st.includeDirs && x != dir
    ensures dir !in st.includeDirs ==> r == st
    ensures Valid(st) ==> Valid(r)
  {
    RemoveNoDup(st.includeDirs, dir);
    st.(includeDirs := Remove(st.includeDirs, dir))
  }

  function AddExcludeDirs(st: Store, dirs: seq<Path>): (r: Store)
    ensures r.includeDirs == st.includeDirs && r.files == st.files
    ensures NoDup(r.excludeDirs)
    ensures forall x :: x in r.excludeDirs <==> x in st.excludeDirs || x in dirs
    ensures Valid(st) ==> Valid(r)
    ensures Valid(st) ==> st.excludeDirs <= r.excludeDirs
  {
    var r := st.(excludeDirs := AddDirs(st.excludeDirs, dirs));
    if NoDup(st.excludeDirs) then AddDirsKeepsOrder(st.excludeDirs, dirs); r else r
  }

  function RemoveExcludeDir(st: Store, dir: Path): (r: Store)
    ensures r.includeDirs == st.includeDirs && r.files == st.files
    ensures forall x :: x in r.excludeDirs <==> x in st.excludeDirs && x != dir
    ensures dir !in st.excludeDirs ==> r == st
    ensures Valid(st) ==> Valid(r)
  {
    RemoveNoDup(st.excludeDirs, dir);
    st.(excludeDirs := Remove(st.excludeDirs, dir))
  }

  /**
   The work queue `process` starts from: one pending item per include
   directory, in the order given. `fs` maps each path that `readDir` can list
   to its listing; a path outside it makes `readDir` reject.
   */
  function Roots(dirs: seq<Path>, fs: map<Path, seq<Entry>>): (q: seq<Pending>)
    ensures |q| == |dirs|
    ensures forall k :: 0 <= k < |q| ==> q[k].path == dirs[k]
    ensures forall k :: 0 <= k < |q| ==> (q[k].listing.Listed? <==> dirs[k] in fs)
    ensures forall k :: 0 <= k < |q| && dirs[k] in fs ==> q[k].listing == Listed(fs[dirs[k]])
  {
    seq(|dirs|, k requires 0 <= k < |dirs| =>
      Pending(dirs[k], if dirs[k] in fs then Listed(fs[dirs[k]]) else Unreadable))
  }

  /** Every pending item of `q` can be listed. */
  predicate AllListed(q: seq<Pending>) {
    forall k :: 0 <= k < |q| ==> q[k].listing.Listed?
  }

  /**
   The inner loop of `process`: walks one listing, joining every entry name to
   the directory path; files go to `found`, sub-directories to `subdirs`.
   */
  method ListEntries(join: Join, dir: Path, entries: seq<Entry>) returns (found: seq<Path>, subdirs: seq<Pending>)
    ensures found == EntriesFiles(join, dir, entries)
    ensures subdirs == EntriesSubDirs(join, dir, entries)
  {
    found, subdirs := [], [];
    var j := 0;
    while j < |entries|
      invariant 0 <= j <= |entries|
      invariant found == EntriesFiles(join, dir, entries[..j])
      invariant subdirs == EntriesSubDirs(join, dir, entries[..j])
    {
      var path := join(dir, entries[j].name);
      EntriesStep(join, dir, entries, j);
      if entries[j].Dir? {
        subdirs := subdirs + [Pending(path, Listed(entries[j].children))];
      } else {
        found := found + [path];
      }
      j := j + 1;
    }
    assert entries[..j] == entries;
  }

  /** The queue is the rest of `level` followed by the sub-directories of its first `i` directories. */
  ghost predicate QueueShape(join: Join, level: seq<Pending>, i: nat, queue: seq<Pending>) {
    i <= |level| && queue == level[i..] + LevelSubDirs(join, level[..i])
  }

  /** The files emitted so far, then what the queue will still emit, make the level order of the roots. */
  ghost predicate Emitted(join: Join, roots: seq<Pending>, level: seq<Pending>, i: nat, files: seq<Path>) {
    i <= |level| &&
    files + LevelFiles(join, level[i..]) + LevelOrder(join, LevelSubDirs(join, level)) == LevelOrder(join, roots)
  }

  /**
   Every directory taken from the queue was listed. While still on the first
   level (`first`), the files emitted are those of the roots already listed;
   past it, every root was listed.
   */
  ghost predicate ListedSoFar(join: Join, roots: seq<Pending>, level: seq<Pending>, i: nat,
                              files: seq<Path>, first: bool) {
    && i <= |level|
    && AllListed(level[..i])
    && (first ==> level == roots && files == LevelFiles(join, roots[..i]))
    && (!first ==> AllListed(roots) && AllListed(level))
  }

  /** The loop invariant of `process`. */
  ghost predicate BfsInv(join: Join, roots: seq<Pending>, level: seq<Pending>, i: nat,
                         queue: seq<Pending>, files: seq<Path>, first: bool)
  {
    QueueShape(join, level, i, queue) && Emitted(join, roots, level, i, files)
    && ListedSoFar(join, roots, level, i, files, first)
  }

  lemma {:induction false} BfsInvInit(join: Join, roots: seq<Pending>)
    ensures BfsInv(join, roots, roots, 0, roots, [], true)
  {
    LevelDone(join, roots);
    assert QueueShape(join, roots, 0, roots) by {
      assert LevelSubDirs(join, roots[..0]) == [];
    }
    assert Emitted(join, roots, roots, 0, []) by {
      EmittedInit(join, roots);
    }
  }

  lemma {:induction false} EmittedInit(join: Join, roots: seq<Pending>)
    ensures Emitted(join, roots, roots, 0, [])
  {
    LevelDone(join, roots);
    if |roots| > 0 {
      assert LevelOrder(join, roots) == LevelFiles(join, roots) + LevelOrder(join, LevelSubDirs(join, roots));
      assert [] + LevelFiles(join, roots) == LevelFiles(join, roots);
    } else {
      assert LevelFiles(join, roots) == [] && LevelSubDirs(join, roots) == [];
    }
  }

  /** Once a level is used up, the queue holds exactly the next level. */
  lemma {:induction false} BfsInvNextLevel(join: Join, roots: seq<Pending>, level: seq<Pending>,
                                           queue: seq<Pending>, files: seq<Path>, first: bool)
    requires BfsInv(join, roots, level, |level|, queue, files, first)
    requires |queue| > 0
    ensures BfsInv(join, roots, LevelSubDirs(join, level), 0, queue, files, false)
  {
    QueueShapeNext(join, level, queue);
    EmittedNext(join, roots, level, files);
    ListedSoFarNext(join, roots, level, files, first);
  }

  lemma {:induction false} QueueShapeNext(join: Join, level: seq<Pending>, queue: seq<Pending>)
    requires QueueShape(join, level, |level|, queue)
    ensures queue == LevelSubDirs(join, level)
    ensures QueueShape(join, LevelSubDirs(join, level), 0, queue)
  {
    LevelDone(join, level);
    assert queue == [] + LevelSubDirs(join, level);
  }

  lemma {:induction false} EmittedNext(join: Join, roots: seq<Pending>, level: seq<Pending>, files: seq<Path>)
    requires Emitted(join, roots, level, |level|, files)
    requires |LevelSubDirs(join, level)| > 0
    ensures Emitted(join, roots, LevelSubDirs(join, level), 0, files)
  {
    var next := LevelSubDirs(join, level);
    LevelDone(join, level);
    LevelDone(join, next);
    assert files + [] == files;
    assert LevelOrder(join, next) == LevelFiles(join, next) + LevelOrder(join, LevelSubDirs(join, next));
    ConcatAssoc(files, LevelFiles(join, next), LevelOrder(join, LevelSubDirs(join, next)));
  }

  lemma {:induction false} ListedSoFarNext(join: Join, roots: seq<Pending>, level: seq<Pending>,
                                           files: seq<Path>, first: bool)
    requires ListedSoFar(join, roots, level, |level|, files, first)
    ensures ListedSoFar(join, roots, LevelSubDirs(join, level), 0, files, false)
  {
    LevelDone(join, level);
  }

  /** At the end of a level nothing of it is left and all of it is done. */
  lemma LevelDone(join: Join, level: seq<Pending>)
    ensures level[|level|..] == [] && level[..|level|] == level && level[0..] == level
    ensures LevelFiles(join, level[|level|..]) == []
  {
  }

  lemma {:induction false} QueueShapeStep(join: Join, level: seq<Pending>, i: nat, queue: seq<Pending>)
    requires QueueShape(join, level, i, queue) && i < |level|
    ensures queue[0] == level[i]
    ensures QueueShape(join, level, i + 1, queue[1..] + SubDirs(join, queue[0]))
  {
    var a, b, c := level[i + 1..], LevelSubDirs(join, level[..i]), SubDirs(join, level[i]);
    QueueFront(level, i, b, queue);
    LevelSubDirsStep(join, level, i);
    ConcatAssoc(a, b, c);
  }

  lemma QueueFront(level: seq<Pending>, i: nat, b: seq<Pending>, queue: seq<Pending>)
    requires i < |level| && queue == level[i..] + b
    ensures queue[0] == level[i] && queue[1..] == level[i + 1..] + b
  {
    SliceStep(level, i);
    ConcatAssoc([level[i]], level[i + 1..], b);
  }

  lemma {:induction false} EmittedStep(join: Join, roots: seq<Pending>, level: seq<Pending>, i: nat, files: seq<Path>)
    requires Emitted(join, roots, level, i, files) && i < |level|
    ensures Emitted(join, roots, level, i + 1, files + DirectFiles(join, level[i]))
  {
    LevelFilesStep(join, level, i);
    ConcatAssoc(files, DirectFiles(join, level[i]), LevelFiles(join, level[i + 1..]));
  }

  lemma {:induction false} ListedSoFarStep(join: Join, roots: seq<Pending>, level: seq<Pending>, i: nat,
                                           files: seq<Path>, first: bool)
    requires ListedSoFar(join, roots, level, i, files, first) && i < |level| && level[i].listing.Listed?
    ensures ListedSoFar(join, roots, level, i + 1, files + DirectFiles(join, level[i]), first)
  {
    SliceStep(level, i);
    LevelFilesStep(join, level, i);
  }

  /** Listing the directory at the front of the queue keeps the invariant. */
  lemma {:induction false} BfsInvStep(join: Join, roots: seq<Pending>, level: seq<Pending>, i: nat,
                                      queue: seq<Pending>, files: seq<Path>, first: bool)
    requires BfsInv(join, roots, level, i, queue, files, first)
    requires i < |level| && queue[0].listing.Listed?
    ensures BfsInv(join, roots, level, i + 1, queue[1..] + SubDirs(join, queue[0]),
                   files + DirectFiles(join, queue[0]), first)
  {
    QueueShapeStep(join, level, i, queue);
    EmittedStep(join, roots, level, i, files);
    ListedSoFarStep(join, roots, level, i, files, first);
  }

  /** An empty queue means the whole level-order enumeration was emitted. */
  lemma {:induction false} BfsInvDone(join: Join, roots: seq<Pending>, level: seq<Pending>, i: nat,
                   files: seq<Path>, first: bool)
    requires BfsInv(join, roots, level, i, [], files, first)
    ensures files == LevelOrder(join, roots)
  {
    assert |level[i..]| == 0;
    assert level[..i] == level;
    assert LevelFiles(join, level[i..]) == [];
  }

  /**
   `process`: clears `files`, copies the include directories into a queue,
   and repeatedly lists the directory at the front, appending its files to
   `files` and its sub-directories to the back of the queue. `ok` is false when
   `readDir` rejected on an include directory; `files` then holds what was
   appended before the rejection. The exclude list is never consulted.
   */
  method Process(st: Store, fs: map<Path, seq<Entry>>, join: Join) returns (r: Store, ok: bool)
    ensures r.includeDirs == st.includeDirs && r.excludeDirs == st.excludeDirs
    ensures ok <==> forall d :: d in st.includeDirs ==> d in fs
    ensures ok ==> r.files == LevelOrder(join, Roots(st.includeDirs, fs))
    ensures ok ==> multiset(r.files) == multiset(Reachable(join, Roots(st.includeDirs, fs)))
    ensures !ok ==>
      exists k :: (0 <= k < |st.includeDirs| && st.includeDirs[k] !in fs
                   && (forall i :: 0 <= i < k ==> st.includeDirs[i] in fs)
                   && r.files == LevelFiles(join, Roots(st.includeDirs[..k], fs)))
  {
    var files: seq<Path> := [];
    var queue := Roots(st.includeDirs, fs);
    ghost var roots := queue;
    ghost var level := roots;
    ghost var i := 0;
    ghost var first := true;
    BfsInvInit(join, roots);
    while |queue| > 0
      invariant BfsInv(join, roots, level, i, queue, files, first)
      decreases QueueSize(queue)
    {
      if i == |level| {
        BfsInvNextLevel(join, roots, level, queue, files, first);
        level, i, first := LevelSubDirs(join, level), 0, false;
      }
      QueueStep(join, queue);
      var dir := queue[0];
      match dir.listing {
        case Unreadable =>
          RejectedRoot(join, st.includeDirs, fs, roots, level, i, queue, files, first);
          r := st.(files := files);
          ok := false;
          return;
        case Listed(entries) =>
          BfsInvStep(join, roots, level, i, queue, files, first);
          var found, subdirs := ListEntries(join, dir.path, entries);
          files := files + found;
          queue := queue[1..] + subdirs;
          i := i + 1;
      }
    }
    BfsInvDone(join, roots, level, i, files, first);
    AllRootsListed(join, st.includeDirs, fs, roots, level, i, files, first);
    LevelOrderIsReachable(join, roots);
    r := st.(files := files);
    ok := true;
  }

  /** A rejection can only come from an include directory missing from `fs`. */
  lemma {:induction false} RejectedRoot(join: Join, dirs: seq<Path>, fs: map<Path, seq<Entry>>, roots: seq<Pending>,
                     level: seq<Pending>, i: nat, queue: seq<Pending>, files: seq<Path>, first: bool)
    requires roots == Roots(dirs, fs)
    requires BfsInv(join, roots, level, i, queue, files, first)
    requires i < |level| && |queue| > 0 && queue[0].listing.Unreadable?
    ensures i < |dirs| && dirs[i] !in fs
    ensures forall j :: 0 <= j < i ==> dirs[j] in fs
    ensures files == LevelFiles(join, Roots(dirs[..i], fs))
    ensures !(forall d :: d in dirs ==> d in fs)
  {
    assert queue[0] == level[i];
    assert Roots(dirs[..i], fs) == roots[..i];
    forall j | 0 <= j < i
      ensures dirs[j] in fs
    {
      assert roots[..i][j].listing.Listed?;
    }
  }

  /** A completed run listed every include directory. */
  lemma {:induction false} AllRootsListed(join: Join, dirs: seq<Path>, fs: map<Path, seq<Entry>>, roots: seq<Pending>,
                       level: seq<Pending>, i: nat, files: seq<Path>, first: bool)
    requires roots == Roots(dirs, fs)
    requires BfsInv(join, roots, level, i, [], files, first)
    ensures forall d :: d in dirs ==> d in fs
  {
    if first {
      assert level[..i] == roots;
    }
  }
}
