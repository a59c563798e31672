/**
 The stamp cache is invisible: over every history of edits, rearrangements,
 builds and lost commits, the manifest built from the cache is the one a full
 read would give, provided every change of a file stamps its ctime no more than
 the racy window behind a clock that does not run backwards.
 */
module IncrementalBuild {
  import opened Paths
  import opened Chunking
  import opened Manifest
  import opened Builder

  /** The content and metadata of one inode. */
  datatype Inode = Inode(content: Bytes, mode: nat, mtime: int, ctime: int)

  /** What a path names: an inode, a directory or a link. */
  datatype Place =
    | FileAt(ino: nat)
    | DirectoryAt(mode: nat, mtime: int)
    | SymlinkAt(target: string, mode: nat, mtime: int)

  /** Inodes change under their own numbers; the tree that names them may be rearranged freely. */
  datatype Disk = Disk(inodes: map<nat, Inode>, tree: map<Path, Place>, walk: seq<Path>)

  function NodeAt(d: Disk, p: Path): Node
    requires p in d.tree && (d.tree[p].FileAt? ==> d.tree[p].ino in d.inodes)
  {
    match d.tree[p]
    case FileAt(ino) =>
      var i := d.inodes[ino];
      File(i.content, i.mode, i.mtime, i.ctime, ino)
    case DirectoryAt(mode, mtime) => Directory(mode, mtime)
    case SymlinkAt(target, mode, mtime) => Symlink(target, mode, mtime)
  }

  predicate Linked(d: Disk)
  {
    && (forall p | p in d.tree :: Proper(p) && (d.tree[p].FileAt? ==> d.tree[p].ino in d.inodes))
    && (forall i | 0 <= i < |d.walk| :: d.walk[i] in d.tree)
    && (forall i, j | 0 <= i < j < |d.walk| :: d.walk[i] != d.walk[j])
  }

  function Freeze(d: Disk): (s: Snapshot)
    requires Linked(d)
    ensures s.Listed()
  {
    Snapshot(map p | p in d.tree :: NodeAt(d, p), d.walk)
  }

  /** A running checkpoint engine: clock, disk, the builder's cache and the baselines of builds not yet committed. */
  datatype World = World(now: int, disk: Disk, cache: Cache, pending: set<Cache>)

  datatype Act =
    | Wait(ns: nat)
    | Store(ino: nat, data: Inode)           // create, write, chmod, utime, truncate
    | Rearrange(tree: map<Path, Place>, walk: seq<Path>)  // rename, link, unlink, mkdir, symlink
    | BuildNow
    | CommitBuild(stamps: Cache)             // a pending build became durable and is remembered
    | Forget

  predicate Enabled(w: World, a: Act)
  {
    match a
    case Store(_, data) => data.ctime >= w.now - RACY_WINDOW
    case Rearrange(tree, walk) => Linked(Disk(w.disk.inodes, tree, walk))
    case CommitBuild(stamps) => stamps in w.pending
    case _ => true
  }

  function Do(sha: Bytes -> Digest, size: nat, w: World, a: Act): World
    requires Linked(w.disk) && size > 0
  {
    match a
    case Wait(ns) => w.(now := w.now + ns)
    case Store(ino, data) => w.(disk := w.disk.(inodes := w.disk.inodes[ino := data]))
    case Rearrange(tree, walk) => w.(disk := w.disk.(tree := tree, walk := walk))
    case BuildNow =>
      var s := Freeze(w.disk);
      w.(pending := w.pending + {Stamps(sha, size, w.cache, s, w.now, |s.walk|)})
    case CommitBuild(stamps) => w.(cache := stamps)
    case Forget => w.(cache := map[])
  }

  ghost predicate Honest(sha: Bytes -> Digest, size: nat, w: World, acts: seq<Act>)
    requires Linked(w.disk) && size > 0
    decreases |acts|
  {
    acts == [] || (Enabled(w, acts[0]) && Honest(sha, size, Do(sha, size, w, acts[0]), acts[1..]))
  }

  ghost function After(sha: Bytes -> Digest, size: nat, w: World, acts: seq<Act>): (w': World)
    requires Linked(w.disk) && size > 0 && Honest(sha, size, w, acts)
    ensures Linked(w'.disk)
    decreases |acts|
  {
    if acts == [] then w else After(sha, size, Do(sha, size, w, acts[0]), acts[1..])
  }

  // ------------------------------------------------------------ invariant

  predicate HasStamp(d: Disk, stamp: Stamp)
  {
    && stamp.ino in d.inodes
    && var i := d.inodes[stamp.ino];
       Stamp(|i.content|, i.mtime, i.ctime, stamp.ino, i.mode) == stamp
  }

  /** The entry is what reading this content under this stamp gives. */
  predicate FormedBy(sha: Bytes -> Digest, size: nat, key: string, c: Cached, content: Bytes)
    requires size > 0
  {
    && |content| == c.stamp.size
    && c.entry == FileEntry(sha, size, key, File(content, c.stamp.mode, c.stamp.mtime, c.stamp.ctime, c.stamp.ino))
  }

  ghost predicate Formed(sha: Bytes -> Digest, size: nat, key: string, c: Cached)
    requires size > 0
  {
    exists content: Bytes :: FormedBy(sha, size, key, c, content)
  }

  /** A cached entry is older than the window, and true of its inode for as long as the inode carries the stamp. */
  ghost predicate Trusted(sha: Bytes -> Digest, size: nat, w: World, key: string, c: Cached)
    requires size > 0
  {
    && c.stamp.ctime < w.now - RACY_WINDOW && Formed(sha, size, key, c)
    && (HasStamp(w.disk, c.stamp) ==>
          var i := w.disk.inodes[c.stamp.ino];
          c.entry == FileEntry(sha, size, key, File(i.content, i.mode, i.mtime, i.ctime, c.stamp.ino)))
  }

  ghost predicate AllTrusted(sha: Bytes -> Digest, size: nat, w: World, m: Cache)
    requires size > 0
  {
    forall key | key in m :: Trusted(sha, size, w, key, m[key])
  }

  ghost predicate Coherent(sha: Bytes -> Digest, size: nat, w: World)
    requires size > 0
  {
    && Linked(w.disk)
    && AllTrusted(sha, size, w, w.cache)
    && (forall m | m in w.pending :: AllTrusted(sha, size, w, m))
  }

  lemma {:induction false} StampsTrusted(sha: Bytes -> Digest, size: nat, w: World, walked: nat)
    requires size > 0 && Linked(w.disk) && AllTrusted(sha, size, w, w.cache) && walked <= |w.disk.walk|
    ensures AllTrusted(sha, size, w, Stamps(sha, size, w.cache, Freeze(w.disk), w.now, walked))
    decreases walked
  {
    if walked > 0 {
      StampsTrusted(sha, size, w, walked - 1);
      var p := w.disk.walk[walked - 1];
      var n := Freeze(w.disk).nodes[p];
      if n.File? {
        assert FormedBy(sha, size, Join(p), Cached(StampOf(n), FileEntry(sha, size, Join(p), n)), n.content);
      }
    }
  }

  lemma StoreKeepsTrust(sha: Bytes -> Digest, size: nat, w: World, ino: nat, data: Inode, m: Cache)
    requires size > 0 && Linked(w.disk) && AllTrusted(sha, size, w, m) && data.ctime >= w.now - RACY_WINDOW
    ensures AllTrusted(sha, size, Do(sha, size, w, Store(ino, data)), m)
  {
    forall key | key in m
      ensures Trusted(sha, size, Do(sha, size, w, Store(ino, data)), key, m[key])
    {
      assert Trusted(sha, size, w, key, m[key]);
    }
  }

  lemma CoherentStep(sha: Bytes -> Digest, size: nat, w: World, a: Act)
    requires size > 0 && Coherent(sha, size, w) && Enabled(w, a)
    ensures Coherent(sha, size, Do(sha, size, w, a))
  {
    match a
    case BuildNow => BuildIsCoherent(sha, size, w);
    case Store(ino, data) => StoreIsCoherent(sha, size, w, ino, data);
    case _ =>
  }

  lemma BuildIsCoherent(sha: Bytes -> Digest, size: nat, w: World)
    requires size > 0 && Coherent(sha, size, w) && Enabled(w, BuildNow)
    ensures Coherent(sha, size, Do(sha, size, w, BuildNow))
  {
    StampsTrusted(sha, size, w, |w.disk.walk|);
  }

  lemma StoreIsCoherent(sha: Bytes -> Digest, size: nat, w: World, ino: nat, data: Inode)
    requires size > 0 && Coherent(sha, size, w) && Enabled(w, Store(ino, data))
    ensures Coherent(sha, size, Do(sha, size, w, Store(ino, data)))
  {
    StoreKeepsTrust(sha, size, w, ino, data, w.cache);
    forall m | m in w.pending
      ensures AllTrusted(sha, size, Do(sha, size, w, Store(ino, data)), m)
    {
      StoreKeepsTrust(sha, size, w, ino, data, m);
    }
  }

  lemma {:induction false} CoherentAfter(sha: Bytes -> Digest, size: nat, w: World, acts: seq<Act>)
    requires size > 0 && Coherent(sha, size, w) && Honest(sha, size, w, acts)
    ensures Coherent(sha, size, After(sha, size, w, acts))
    decreases |acts|
  {
    if acts != [] {
      CoherentStep(sha, size, w, acts[0]);
      CoherentAfter(sha, size, Do(sha, size, w, acts[0]), acts[1..]);
    }
  }

  lemma {:induction false} SameEntries(sha: Bytes -> Digest, size: nat, w: World, walked: nat)
    requires size > 0 && Linked(w.disk) && AllTrusted(sha, size, w, w.cache) && walked <= |w.disk.walk|
    ensures Entries(sha, size, w.cache, Freeze(w.disk), walked) == Entries(sha, size, map[], Freeze(w.disk), walked)
    decreases walked
  {
    if walked > 0 {
      SameEntries(sha, size, w, walked - 1);
    }
  }

  /** After any honest history, a build from the cache records what a build that reads every file records. */
  lemma IncrementalBuildIsFullBuild(
      sha: Bytes -> Digest, size: nat, w: World, acts: seq<Act>, generation: nat)
    requires size > 0 && Linked(w.disk) && w.cache == map[] && w.pending == {}
    requires Honest(sha, size, w, acts)
    ensures var e := After(sha, size, w, acts);
            Outcome(sha, size, e.cache, Freeze(e.disk), e.now, generation).entries
            == Outcome(sha, size, map[], Freeze(e.disk), e.now, generation).entries
  {
    CoherentAfter(sha, size, w, acts);
    var e := After(sha, size, w, acts);
    SameEntries(sha, size, e, |e.disk.walk|);
  }
}
