/**
 An abstract directory tree and two reference enumerations of the files in it.
 A directory waiting to be listed is a `Pending` item: its path and what
 `readDir` returns for it. Paths are combined by an uninterpreted `join`.

 - `LevelOrder` lists files breadth first: the direct files of every directory
   of one level, in queue order and listing order, then the next level.
 - `Reachable` lists the same files depth first, straight from the tree shape.
 */
module FsTree {
  import opened DirList

  /** One entry of a directory listing. */
  datatype Entry = File(name: Path) | Dir(name: Path, children: seq<Entry>)

  /** What listing a directory gives: its entries, or a rejection. */
  datatype Listing = Unreadable | Listed(entries: seq<Entry>)

  /** A directory in the work queue, with the listing `readDir` gives for it. */
  datatype Pending = Pending(path: Path, listing: Listing)

  /** Combines a directory path and an entry name into the entry's path. */
  type Join = (Path, Path) -> Path

  function EntrySize(e: Entry): nat
    decreases e
  {
    match e
    case File(_) => 1
    case Dir(_, cs) => 1 + EntriesSize(cs)
  }

  function EntriesSize(es: seq<Entry>): nat
    decreases es
  {
    if |es| == 0 then 0 else EntrySize(es[0]) + EntriesSize(es[1..])
  }

  /** Number of tree nodes a pending directory still has to visit, itself included. */
  function PendingSize(p: Pending): nat {
    match p.listing
    case Unreadable => 1
    case Listed(es) => 1 + EntriesSize(es)
  }

  function QueueSize(q: seq<Pending>): nat {
    if |q| == 0 then 0 else PendingSize(q[0]) + QueueSize(q[1..])
  }

  lemma {:induction false} QueueSizeAppend(a: seq<Pending>, b: seq<Pending>)
    ensures QueueSize(a + b) == QueueSize(a) + QueueSize(b)
  {
    if |a| == 0 {
      assert a + b == b;
    } else {
      assert (a + b)[1..] == a[1..] + b;
      QueueSizeAppend(a[1..], b);
    }
  }

  /** The joined paths of the non-directory entries of one listing, in listing order. */
  function EntriesFiles(join: Join, dir: Path, es: seq<Entry>): (r: seq<Path>)
    ensures |r| <= |es|
    ensures forall x :: x in r <==> exists k :: 0 <= k < |es| && es[k].File? && x == join(dir, es[k].name)
  {
    if |es| == 0 then []
    else
      var rest := EntriesFiles(join, dir, es[1..]);
      assert forall k :: 0 < k < |es| ==> es[k] == es[1..][k - 1];
      assert forall k :: 0 <= k < |es| - 1 ==> es[1..][k] == es[k + 1];
      if es[0].File? then [join(dir, es[0].name)] + rest else rest
  }

  /** The sub-directories of one listing as pending items, in listing order. */
  function EntriesSubDirs(join: Join, dir: Path, es: seq<Entry>): (r: seq<Pending>)
    ensures QueueSize(r) <= EntriesSize(es)
    ensures forall k :: 0 <= k < |r| ==> r[k].listing.Listed?
  {
    if |es| == 0 then []
    else
      var rest := EntriesSubDirs(join, dir, es[1..]);
      match es[0]
      case File(_) => rest
      case Dir(n, cs) =>
        var r := [Pending(join(dir, n), Listed(cs))] + rest;
        assert r[1..] == rest;
        r
  }

  /** Listing one more entry adds its file, or its sub-directory, at the end. */
  lemma {:induction false} EntriesStep(join: Join, dir: Path, es: seq<Entry>, j: nat)
    requires j < |es|
    ensures EntriesFiles(join, dir, es[..j + 1]) ==
      EntriesFiles(join, dir, es[..j]) + (if es[j].File? then [join(dir, es[j].name)] else [])
    ensures EntriesSubDirs(join, dir, es[..j + 1]) ==
      EntriesSubDirs(join, dir, es[..j]) + (if es[j].Dir? then [Pending(join(dir, es[j].name), Listed(es[j].children))] else [])
  {
    if j > 0 {
      assert es[..j + 1][1..] == es[1..][..j];
      assert es[..j][1..] == es[1..][..j - 1];
      EntriesStep(join, dir, es[1..], j - 1);
    }
  }

  /** Files a pending directory lists directly. */
  function DirectFiles(join: Join, p: Pending): seq<Path> {
    match p.listing
    case Unreadable => []
    case Listed(es) => EntriesFiles(join, p.path, es)
  }

  /** Sub-directories a pending directory lists directly. */
  function SubDirs(join: Join, p: Pending): (r: seq<Pending>)
    ensures QueueSize(r) < PendingSize(p)
  {
    match p.listing
    case Unreadable => []
    case Listed(es) => EntriesSubDirs(join, p.path, es)
  }

  /** Direct files of every directory of `level`, in order. */
  function LevelFiles(join: Join, level: seq<Pending>): seq<Path> {
    if |level| == 0 then [] else DirectFiles(join, level[0]) + LevelFiles(join, level[1..])
  }

  /** The next level: the sub-directories of every directory of `level`, in order. */
  function LevelSubDirs(join: Join, level: seq<Pending>): (r: seq<Pending>)
    ensures |level| > 0 ==> QueueSize(r) < QueueSize(level)
    ensures forall k :: 0 <= k < |r| ==> r[k].listing.Listed?
  {
    if |level| == 0 then []
    else
      var r := SubDirs(join, level[0]) + LevelSubDirs(join, level[1..]);
      QueueSizeAppend(SubDirs(join, level[0]), LevelSubDirs(join, level[1..]));
      assert forall k :: |SubDirs(join, level[0])| <= k < |r| ==>
        r[k] == LevelSubDirs(join, level[1..])[k - |SubDirs(join, level[0])|];
      r
  }

  /** Breadth-first (level-order) enumeration of the files below `level`. */
  function LevelOrder(join: Join, level: seq<Pending>): seq<Path>
    decreases QueueSize(level)
  {
    if |level| == 0 then []
    else LevelFiles(join, level) + LevelOrder(join, LevelSubDirs(join, level))
  }

  lemma {:induction false} LevelFilesAppend(join: Join, a: seq<Pending>, b: seq<Pending>)
    ensures LevelFiles(join, a + b) == LevelFiles(join, a) + LevelFiles(join, b)
  {
    if |a| == 0 {
      assert a + b == b;
    } else {
      assert (a + b)[1..] == a[1..] + b;
      LevelFilesAppend(join, a[1..], b);
    }
  }

  lemma {:induction false} LevelSubDirsAppend(join: Join, a: seq<Pending>, b: seq<Pending>)
    ensures LevelSubDirs(join, a + b) == LevelSubDirs(join, a) + LevelSubDirs(join, b)
  {
    if |a| == 0 {
      assert a + b == b;
    } else {
      assert (a + b)[1..] == a[1..] + b;
      LevelSubDirsAppend(join, a[1..], b);
    }
  }

  /**
   Within one level, the direct files of the directory at position `k` form one
   contiguous block, after those of every directory queued before it and before
   those of every directory queued after it.
   */
  lemma {:induction false} LevelFilesBlock(join: Join, level: seq<Pending>, k: nat)
    requires k < |level|
    ensures LevelFiles(join, level) ==
      LevelFiles(join, level[..k]) + DirectFiles(join, level[k]) + LevelFiles(join, level[k + 1..])
  {
    var tail := level[k..];
    assert level == level[..k] + tail;
    LevelFilesAppend(join, level[..k], tail);
    assert tail[0] == level[k] && tail[1..] == level[k + 1..];
  }

  lemma ConcatAssoc<T>(a: seq<T>, b: seq<T>, c: seq<T>)
    ensures (a + b) + c == a + (b + c)
  {
  }

  /** Splitting a sequence around position `i`. */
  lemma SliceStep<T>(s: seq<T>, i: nat)
    requires i < |s|
    ensures s[i..] == [s[i]] + s[i + 1..]
    ensures s[..i + 1] == s[..i] + [s[i]]
  {
  }

  /** Taking the directory at position `i` of a level moves its files from the rest of the level to the part already done. */
  lemma {:induction false} LevelFilesStep(join: Join, level: seq<Pending>, i: nat)
    requires i < |level|
    ensures LevelFiles(join, level[i..]) == DirectFiles(join, level[i]) + LevelFiles(join, level[i + 1..])
    ensures LevelFiles(join, level[..i + 1]) == LevelFiles(join, level[..i]) + DirectFiles(join, level[i])
  {
    SliceStep(level, i);
    LevelFilesAppend(join, level[..i], [level[i]]);
    assert LevelFiles(join, [level[i]]) == DirectFiles(join, level[i]) + LevelFiles(join, []);
  }

  /** Taking the directory at position `i` of a level adds its sub-directories to those already discovered. */
  lemma {:induction false} LevelSubDirsStep(join: Join, level: seq<Pending>, i: nat)
    requires i < |level|
    ensures LevelSubDirs(join, level[..i + 1]) == LevelSubDirs(join, level[..i]) + SubDirs(join, level[i])
  {
    SliceStep(level, i);
    LevelSubDirsAppend(join, level[..i], [level[i]]);
    assert LevelSubDirs(join, [level[i]]) == SubDirs(join, level[i]) + LevelSubDirs(join, []);
  }

  /** Replacing the front of the queue by its sub-directories shrinks the work left. */
  lemma {:induction false} QueueStep(join: Join, q: seq<Pending>)
    requires |q| > 0
    ensures QueueSize(q[1..] + SubDirs(join, q[0])) < QueueSize(q)
  {
    QueueSizeAppend(q[1..], SubDirs(join, q[0]));
  }

  /** Depth-first enumeration of the files below the entries `es` of directory `dir`. */
  function TreeFiles(join: Join, dir: Path, es: seq<Entry>): seq<Path>
    decreases es
  {
    if |es| == 0 then [] else EntryFiles(join, dir, es[0]) + TreeFiles(join, dir, es[1..])
  }

  function EntryFiles(join: Join, dir: Path, e: Entry): seq<Path>
    decreases e
  {
    match e
    case File(n) => [join(dir, n)]
    case Dir(n, cs) => TreeFiles(join, join(dir, n), cs)
  }

  /** Every file below the directories of `q`, straight from the tree. */
  function Reachable(join: Join, q: seq<Pending>): seq<Path> {
    if |q| == 0 then []
    else
      (match q[0].listing
       case Unreadable => []
       case Listed(es) => TreeFiles(join, q[0].path, es))
      + Reachable(join, q[1..])
  }

  lemma {:induction false} ReachableAppend(join: Join, a: seq<Pending>, b: seq<Pending>)
    ensures Reachable(join, a + b) == Reachable(join, a) + Reachable(join, b)
  {
    if |a| == 0 {
      assert a + b == b;
    } else {
      assert (a + b)[1..] == a[1..] + b;
      ReachableAppend(join, a[1..], b);
    }
  }

  /** The files below a listing are its direct files plus those below its sub-directories. */
  lemma {:induction false} TreeFilesSplit(join: Join, dir: Path, es: seq<Entry>)
    ensures multiset(TreeFiles(join, dir, es)) ==
      multiset(EntriesFiles(join, dir, es)) + multiset(Reachable(join, EntriesSubDirs(join, dir, es)))
  {
    if |es| > 0 {
      TreeFilesSplit(join, dir, es[1..]);
      var rest := EntriesSubDirs(join, dir, es[1..]);
      match es[0]
      case File(n) =>
      case Dir(n, cs) =>
        var p := Pending(join(dir, n), Listed(cs));
        ReachableAppend(join, [p], rest);
        assert Reachable(join, [p]) == TreeFiles(join, join(dir, n), cs) + Reachable(join, []);
    }
  }

  /** One level's reachable files are its direct files plus the next level's reachable files. */
  lemma {:induction false} ReachableSplit(join: Join, level: seq<Pending>)
    ensures multiset(Reachable(join, level)) ==
      multiset(LevelFiles(join, level)) + multiset(Reachable(join, LevelSubDirs(join, level)))
  {
    if |level| > 0 {
      ReachableSplit(join, level[1..]);
      ReachableAppend(join, SubDirs(join, level[0]), LevelSubDirs(join, level[1..]));
      match level[0].listing
      case Unreadable =>
      case Listed(es) => TreeFilesSplit(join, level[0].path, es);
    }
  }

  /**
   Breadth-first order visits exactly the files the tree holds below `level`,
   each as often as the tree holds it.
   */
  lemma {:induction false} LevelOrderIsReachable(join: Join, level: seq<Pending>)
    ensures multiset(LevelOrder(join, level)) == multiset(Reachable(join, level))
    decreases QueueSize(level)
  {
    if |level| > 0 {
      LevelOrderIsReachable(join, LevelSubDirs(join, level));
      ReachableSplit(join, level);
    }
  }
}
