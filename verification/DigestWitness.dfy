/**
 The assumptions on digests can be met: a digest function and a workspace of two
 different files for which the checkpoint, the restore and the stamp results apply.
 */
module DigestWitness {
  import opened Base
  import opened Paths
  import opened Chunking
  import opened Manifest
  import opened Builder
  import opened IncrementalBuild
  import opened Journal
  import opened DurableStore
  import opened CheckpointEngine
  import opened Decoder
  import opened Materialize
  import opened RoundTrip
  import Install
  import opened Recovery
  import opened Lifetime
  import opened StaleStamps

  const ZERO: Bytes := [0]
  const ONE: Bytes := [1]

  /** A digest of 64 times the same digit. */
  function Row(c: char): (d: Digest)
    ensures |d| == 64 && forall i | 0 <= i < 64 :: d[i] == c
  {
    seq(64, _ => c)
  }

  /** Tells two contents apart, and nothing else. */
  function Toy(x: Bytes): Digest
  {
    if x == ZERO then Row('a') else if x == ONE then Row('b') else Row('c')
  }

  lemma ToyIsHex()
    ensures HexDigests(Toy)
  {
  }

  lemma ToyTellsApart(inPlay: set<Bytes>)
    requires inPlay <= {ZERO, ONE}
    ensures CollisionFree(Toy, inPlay)
  {
    assert Row('a')[0] == 'a' && Row('b')[0] == 'b';
  }

  // ------------------------------------------------------------- the workspace

  const USER: Path := ["user"]
  const LEFT: Path := ["user", "a"]
  const RIGHT: Path := ["user", "b"]

  /** Two files below one directory. */
  function TwoFiles(): Disk
  {
    Disk(map[1 := Inode(ZERO, 420, 0, 0), 2 := Inode(ONE, 420, 0, 0)],
         map[USER := DirectoryAt(493, 0), LEFT := FileAt(1), RIGHT := FileAt(2)],
         [USER, LEFT, RIGHT])
  }

  lemma PathsDiffer()
    ensures |USER| == 1 && |LEFT| == 2 && |RIGHT| == 2 && LEFT != RIGHT
    ensures Proper(USER) && Proper(LEFT) && Proper(RIGHT)
  {
    assert LEFT[1] == "a" && RIGHT[1] == "b" && "a"[0] != "b"[0];
  }

  lemma TwoFilesLinked()
    ensures Linked(TwoFiles())
    ensures var tree := TwoFiles().tree;
            tree[LEFT] == FileAt(1) && tree[RIGHT] == FileAt(2) && tree[USER].DirectoryAt?
  {
    PathsDiffer();
  }

  function Frozen(): (s: Snapshot)
    ensures s.Listed() && s.walk == [USER, LEFT, RIGHT] && s.nodes.Keys == {USER, LEFT, RIGHT}
    ensures s.nodes[USER] == Directory(493, 0)
    ensures s.nodes[LEFT] == File(ZERO, 420, 0, 0, 1) && s.nodes[RIGHT] == File(ONE, 420, 0, 0, 2)
  {
    PathsDiffer();
    TwoFilesLinked();
    Freeze(TwoFiles())
  }

  lemma FrozenIsWellFormed()
    ensures WellFormed(Frozen())
  {
    var s := Frozen();
    PathsDiffer();
    assert s.walk[0] == USER && s.walk[1] == LEFT && s.walk[2] == RIGHT;
  }

  /** Nothing in these paths is excluded. */
  lemma Included(path: Path)
    requires path == USER || path == LEFT || path == RIGHT
    ensures Includes(path)
  {
    assert Paths.Under(ROOTS[7], path);
    forall k | 0 <= k < |EXCLUDED|
      ensures !Contains(path, EXCLUDED[k])
    {
      NotContained(path, EXCLUDED[k]);
    }
  }

  lemma NotContained(path: Path, run: Path)
    requires path == USER || path == LEFT || path == RIGHT
    requires run in EXCLUDED
    ensures !Contains(path, run)
  {
    var c := run[0][0];
    assert c == '.' || c == '_' || c == 'n' || c == 'h';
  }

  lemma FrozenPieces()
    ensures PiecesOf(Frozen(), 1) <= {ZERO, ONE}
  {
  }

  // ----------------------------------------------------------- within the limits

  lemma {:induction false} SmallTotal(es: seq<Entry>)
    requires forall e | e in es :: e.size <= 1
    ensures TotalSize(es) <= |es|
    decreases |es|
  {
    if es != [] {
      SmallTotal(es[..|es| - 1]);
    }
  }

  lemma EntriesAreFew(s: Snapshot, walked: nat)
    requires s.Listed() && walked <= |s.walk|
    ensures |Entries(Toy, 1, map[], s, walked)| <= walked
  {
  }

  lemma FullEntriesAreFew(s: Snapshot)
    requires s.Listed()
    ensures |FullEntries(Toy, 1, s)| <= |s.walk|
  {
    EntriesAreFew(s, |s.walk|);
    SortKeeps(Entries(Toy, 1, map[], s, |s.walk|));
  }

  /** Directories and files of at most one byte. */
  predicate Small(s: Snapshot)
  {
    forall p | p in s.nodes ::
      var n := s.nodes[p]; n.mtime >= 0 && (n.Directory? || (n.File? && |n.content| <= 1))
  }

  lemma SmallEntry(s: Snapshot, e: Entry)
    requires s.Listed() && Small(s) && Owned(Toy, 1, s, |s.walk|, e)
    ensures e.size <= 1 && e.mtime >= 0
  {
    var p := OwnerOf(Toy, 1, s, e);
  }

  lemma SmallIsWithinLimits(es: seq<Entry>)
    requires |es| <= 3 && forall e | e in es :: e.size <= 1 && e.mtime >= 0
    ensures WithinLimits(es)
  {
    SmallTotal(es);
    assert forall i | 0 <= i < |es| :: es[i] in es;
  }

  lemma FrozenIsWithinLimits()
    ensures WithinLimits(FullEntries(Toy, 1, Frozen()))
  {
    var es := FullEntries(Toy, 1, Frozen());
    FullEntriesListTheNodes(Toy, 1, Frozen());
    FullEntriesAreFew(Frozen());
    forall e | e in es
      ensures e.size <= 1 && e.mtime >= 0
    {
      SmallEntry(Frozen(), e);
    }
    SmallIsWithinLimits(es);
  }

  // ------------------------------------------------------------------- it applies

  /** Every commit is a full read of the two files, and only their pieces were uploaded. */
  ghost predicate HoldsFrozen(store: Store)
    reads store
  {
    && store.Valid() && Complete(store.chunks.Keys, store.manifests, store.commits) && store.sha == Toy
    && (forall g | g in store.commits :: store.manifests[g].entries == FullEntries(Toy, 1, Frozen()))
    && OnlyAdds(map[], store.chunks, PiecesOf(Frozen(), 1))
  }

  /** An undisturbed checkpoint of the two files on an empty store. */
  method Checkpointed() returns (store: Store, g: nat)
    ensures fresh(store) && HoldsFrozen(store) && g in store.commits
  {
    var builder := new ManifestBuilder(Toy, 1);
    store := new Store(Toy, true, []);
    var journal := new DirtyJournal();
    var engine := new Engine(builder, store, journal, (g, es) => "", 60);
    var receipt := engine.CommitCheckpoint(false, Frozen(), 0, [], {});
    g := receipt.value.generation;
  }

  lemma FrozenDoesNotCollide(store: Store)
    requires HoldsFrozen(store)
    ensures CollisionFree(Toy, PiecesOf(Frozen(), 1) + store.chunks.Values)
  {
    FrozenPieces();
    ToyTellsApart(PiecesOf(Frozen(), 1) + store.chunks.Values);
  }

  /** Two different files are checkpointed, restored, and come back as they were. */
  method TwoFilesComeBack() returns (r: Result<Tree, string>)
    ensures r.Ok? && RestoresExactly(r.value, Frozen())
    ensures LEFT in r.value && r.value[LEFT] == RFile(ZERO, 420, 0)
    ensures RIGHT in r.value && r.value[RIGHT] == RFile(ONE, 420, 0)
  {
    var store, g := Checkpointed();
    FrozenIsWellFormed();
    FrozenIsWithinLimits();
    ToyIsHex();
    FrozenDoesNotCollide(store);
    r := RestoreCommitted(store, g, "sandbox", "now", Arrival(true, {}), 1, Frozen());
    Included(LEFT);
    Included(RIGHT);
  }

  /** The same through the whole restore, into an empty workspace. */
  method TwoFilesRecover() returns (ws: Install.Workspace<Blob>, report: Install.Report)
    ensures report.RestoredTo? && !report.fallback && fresh(ws)
    ensures Recovery.Holds(ws.tree, Frozen())
  {
    var store, _ := Checkpointed();
    ws := new Install.Workspace<Blob>(map[], None);
    ghost var b := FrozenBacking(store);
    FrozenBacks(store);
    ghost var top := NewestComes(store, b, ws.tree, ws.state);
    report := RestoreWorkspace(store, ws, [], "sandbox", "now", "1", false, false, Lucky, b);
  }

  /** Everything arrives and no rename fails. */
  function Lucky(g: nat): Trial { Trial(Arrival(true, {}), 100) }

  ghost function FrozenBacking(store: Store): Backing
    reads store
  {
    Backing(store.commits, "1", Lucky, Toy, 1, map g | g in store.commits :: Frozen())
  }

  lemma NewestComes(store: Store, b: Backing, tree: Install.Level<Blob>, state: Option<Blob>) returns (top: nat)
    requires b == FrozenBacking(store) && store.commits != map[] && tree == map[] && state == None
    ensures Newest(b, top) && !Current(b, top, false, state) && Lands(b, top, [], tree, state)
  {
    top := MaxOf(store.commits.Keys);
    FrozenIsWithinLimits();
    SubsetIsSmaller(Tops(Frozen()), {"user"});
  }

  /** A store in which every commit is a full read of the two files backs a restore. */
  lemma FrozenBacks(store: Store)
    requires HoldsFrozen(store)
    ensures BackedBy(FrozenBacking(store), store)
  {
    FrozenIsWellFormed();
    ToyIsHex();
    FrozenDoesNotCollide(store);
  }

  /** A life with a checkpoint in it. */
  lemma ALifeIsPossible() returns (w: World, deeds: seq<Deed>)
    ensures Linked(w.disk) && Plausible(Toy, 1, w, deeds) && Distinct(Toy, 1, w, deeds, map[])
    ensures |deeds| == 3 && deeds[0].Checkpointing? && w.disk == TwoFiles()
  {
    w := World(0, TwoFiles(), map[], {});
    deeds := [Checkpointing(false, [], {}), Change(Wait(5)), ContainerReplaced];
    TwoFilesLinked();
    LifeIsPlausible(w, deeds);
    OnlyFrozenPieces(w, deeds);
    ToyIsHex();
    var none: map<Digest, Bytes> := map[];
    ToyTellsApart(LifePieces(Toy, 1, w, deeds) + none.Values);
  }

  lemma LifeIsPlausible(w: World, deeds: seq<Deed>)
    requires deeds == [Checkpointing(false, [], {}), Change(Wait(5)), ContainerReplaced] && w.disk == TwoFiles()
    ensures Plausible(Toy, 1, w, deeds)
  {
    forall i | 0 <= i < |deeds|
      ensures PlausibleDeed(Scene(Toy, 1, w, deeds, i), deeds[i])
    {
      if i == 0 { CheckpointIsPlausible(w, deeds[0]); }
    }
  }

  lemma CheckpointIsPlausible(w: World, deed: Deed)
    requires w.disk == TwoFiles() && deed.Checkpointing?
    ensures PlausibleDeed(w, deed)
  {
    FrozenIsWellFormed();
  }

  lemma OnlyFrozenPieces(w: World, deeds: seq<Deed>)
    requires |deeds| == 3 && deeds[0].Checkpointing? && deeds[1].Change? && deeds[2].ContainerReplaced?
    requires w.disk == TwoFiles()
    ensures LifePieces(Toy, 1, w, deeds) <= {ZERO, ONE}
  {
    FrozenPieces();
  }

  /** A rewrite that the stamp cache misses. */
  lemma ARewriteIsMissed() returns (w: World, data: Inode)
    ensures Coherent(Toy, 1, w) && Missed(Toy, 1, w, 7, data)
    ensures exists i: nat, was :: was in {ZERO, ONE} && HidesChange(Toy, 1, w, 7, data, i, was)
  {
    Included(LEFT);
    PathsDiffer();
    var w0, acts := CommittedOnce(Toy, 1, LEFT, ZERO);
    CoherentAfter(Toy, 1, w0, acts);
    w, data := After(Toy, 1, w0, acts), Written(ONE);
    ToyTellsApart({ZERO, ONE});
    assert FormedBy(Toy, 1, Join(LEFT), w.cache[Join(LEFT)], ZERO);
    assert MaskedAt(Toy, 1, w, 7, data, 0);
    MissedIsHiddenChange(Toy, 1, w, 7, data, {ZERO, ONE});
  }
}
