/**
 When the stamp cache misses a change: exactly if the change leaves a stamp the
 cache carries with other digests. Neither the clock nor the digests are assumed
 to be well-behaved here.
 */
module StaleStamps {
  import opened Base
  import opened Paths
  import opened Chunking
  import opened Manifest
  import opened Builder
  import opened IncrementalBuild
  import opened RoundTrip

  /** The stamp a store leaves on its inode. */
  function StampLeft(ino: nat, data: Inode): Stamp
  {
    Stamp(|data.content|, data.mtime, data.ctime, ino, data.mode)
  }

  /** The entry carries the digests of this content, whole and piece by piece. */
  predicate Describes(sha: Bytes -> Digest, size: nat, e: Entry, content: Bytes)
    requires size > 0
  {
    e.digest == Some(sha(content)) && e.chunks == Digests(sha, Pieces(content, size))
  }

  /** The cache carries the stamp this store leaves, with other digests. */
  predicate Masks(sha: Bytes -> Digest, size: nat, cache: Cache, key: string, ino: nat, data: Inode)
    requires size > 0
  {
    key in cache && cache[key].stamp == StampLeft(ino, data) && !Describes(sha, size, cache[key].entry, data.content)
  }

  /** The `i`-th walked name is a recorded one of the inode, and masked. */
  predicate MaskedAt(sha: Bytes -> Digest, size: nat, w: World, ino: nat, data: Inode, i: nat)
    requires Linked(w.disk) && size > 0
  {
    && i < |w.disk.walk| && w.disk.tree[w.disk.walk[i]] == FileAt(ino) && Includes(w.disk.walk[i])
    && Masks(sha, size, w.cache, Join(w.disk.walk[i]), ino, data)
  }

  predicate Missed(sha: Bytes -> Digest, size: nat, w: World, ino: nat, data: Inode)
    requires Linked(w.disk) && size > 0
  {
    exists i: nat | i < |w.disk.walk| :: MaskedAt(sha, size, w, ino, data, i)
  }

  // ------------------------------------------------------- path by path

  /** Whether the cached build and the full read record the same for one node. */
  predicate Agrees(sha: Bytes -> Digest, size: nat, cache: Cache, p: Path, n: Node)
    requires size > 0
  {
    EntryOf(sha, size, cache, p, n) == EntryOf(sha, size, map[], p, n)
  }

  /** A cached entry is the file's own exactly if it carries the digests of the file's content. */
  lemma EntryTellsContent(sha: Bytes -> Digest, size: nat, key: string, c: Cached, n: Node)
    requires size > 0 && n.File? && c.stamp == StampOf(n) && Formed(sha, size, key, c)
    ensures c.entry == FileEntry(sha, size, key, n) <==> Describes(sha, size, c.entry, n.content)
    ensures c.entry.path == key
  {
    var content :| FormedBy(sha, size, key, c, content);
  }

  /** Among contents that do not collide, an entry describes only the one it was read from. */
  lemma DescribesOnlyItsOwn(sha: Bytes -> Digest, size: nat, key: string, c: Cached, cached: Bytes, content: Bytes)
    requires size > 0 && FormedBy(sha, size, key, c, cached) && CollisionFree(sha, {cached, content})
    ensures Describes(sha, size, c.entry, content) <==> cached == content
    ensures Describes(sha, size, c.entry, content) <==> c.entry.digest == Some(sha(content))
  {
    assert cached in {cached, content} && content in {cached, content};
  }

  /** After a store, a path agrees exactly unless it names the inode and is masked. */
  lemma PathAgrees(sha: Bytes -> Digest, size: nat, w: World, ino: nat, data: Inode, p: Path)
    requires size > 0 && Coherent(sha, size, w) && p in w.disk.tree
    ensures var w' := Do(sha, size, w, Store(ino, data));
            && Linked(w'.disk)
            && (Agrees(sha, size, w.cache, p, NodeAt(w'.disk, p))
                <==> !(w.disk.tree[p] == FileAt(ino) && Masks(sha, size, w.cache, Join(p), ino, data)))
            && EntryOf(sha, size, w.cache, p, NodeAt(w'.disk, p)).path == Join(p)
  {
    var w' := Do(sha, size, w, Store(ino, data));
    var n, key := NodeAt(w'.disk, p), Join(p);
    if n.File? && Reuses(w.cache, key, n) {
      var c := w.cache[key];
      assert Trusted(sha, size, w, key, c);
      EntryTellsContent(sha, size, key, c, n);
      if w.disk.tree[p] != FileAt(ino) {
        assert HasStamp(w.disk, c.stamp);
      }
    }
  }

  // -------------------------------------------------- all paths together

  /** The two builds list the same paths in the same order. */
  lemma {:induction false} SamePaths(sha: Bytes -> Digest, size: nat, cache: Cache, s: Snapshot, walked: nat)
    requires s.Listed() && walked <= |s.walk| && size > 0
    requires forall i | 0 <= i < walked ::
              EntryOf(sha, size, cache, s.walk[i], s.nodes[s.walk[i]]).path == Join(s.walk[i])
    ensures var a, b := Entries(sha, size, cache, s, walked), Entries(sha, size, map[], s, walked);
            |a| == |b| && forall k | 0 <= k < |a| :: a[k].path == b[k].path
    decreases walked
  {
    if walked > 0 {
      SamePaths(sha, size, cache, s, walked - 1);
    }
  }

  predicate AgreesAt(sha: Bytes -> Digest, size: nat, cache: Cache, s: Snapshot, i: nat)
    requires s.Listed() && i < |s.walk| && size > 0
  {
    Recorded(s.walk[i], s.nodes[s.walk[i]]) ==> Agrees(sha, size, cache, s.walk[i], s.nodes[s.walk[i]])
  }

  lemma AgreeStep(sha: Bytes -> Digest, size: nat, cache: Cache, s: Snapshot, n: nat)
    requires s.Listed() && n < |s.walk| && size > 0
    requires |Entries(sha, size, cache, s, n)| == |Entries(sha, size, map[], s, n)|
    ensures |Entries(sha, size, cache, s, n + 1)| == |Entries(sha, size, map[], s, n + 1)|
    ensures Entries(sha, size, cache, s, n + 1) == Entries(sha, size, map[], s, n + 1)
            <==> Entries(sha, size, cache, s, n) == Entries(sha, size, map[], s, n) && AgreesAt(sha, size, cache, s, n)
  {
    var p := s.walk[n];
    if Recorded(p, s.nodes[p]) {
      SnocEqual(Entries(sha, size, cache, s, n), EntryOf(sha, size, cache, p, s.nodes[p]),
                Entries(sha, size, map[], s, n), EntryOf(sha, size, map[], p, s.nodes[p]));
    }
  }

  /** Up to `walked`, the two builds record the same exactly if every recorded node agrees. */
  ghost predicate Matched(sha: Bytes -> Digest, size: nat, cache: Cache, s: Snapshot, walked: nat)
    requires s.Listed() && walked <= |s.walk| && size > 0
  {
    var a, b := Entries(sha, size, cache, s, walked), Entries(sha, size, map[], s, walked);
    |a| == |b| && (a == b <==> AgreesUpTo(sha, size, cache, s, walked))
  }

  lemma MatchedAtStart(sha: Bytes -> Digest, size: nat, cache: Cache, s: Snapshot, walked: nat)
    requires s.Listed() && size > 0 && walked == 0
    ensures Matched(sha, size, cache, s, walked)
  {
  }

  lemma MatchedStep(sha: Bytes -> Digest, size: nat, cache: Cache, s: Snapshot, n: nat, walked: nat)
    requires s.Listed() && n < |s.walk| && walked == n + 1 && size > 0 && Matched(sha, size, cache, s, n)
    ensures Matched(sha, size, cache, s, walked)
  {
    AgreeStep(sha, size, cache, s, n);
    UpToStep(sha, size, cache, s, n);
  }

  lemma {:induction false} EntriesAgree(sha: Bytes -> Digest, size: nat, cache: Cache, s: Snapshot, walked: nat)
    requires s.Listed() && walked <= |s.walk| && size > 0
    ensures Matched(sha, size, cache, s, walked)
    decreases walked
  {
    if walked == 0 {
      MatchedAtStart(sha, size, cache, s, walked);
    } else {
      EntriesAgree(sha, size, cache, s, walked - 1);
      MatchedStep(sha, size, cache, s, walked - 1, walked);
    }
  }

  predicate AgreesUpTo(sha: Bytes -> Digest, size: nat, cache: Cache, s: Snapshot, walked: nat)
    requires s.Listed() && walked <= |s.walk| && size > 0
  {
    forall i | 0 <= i < walked :: AgreesAt(sha, size, cache, s, i)
  }

  lemma UpToStep(sha: Bytes -> Digest, size: nat, cache: Cache, s: Snapshot, n: nat)
    requires s.Listed() && n < |s.walk| && size > 0
    ensures AgreesUpTo(sha, size, cache, s, n + 1)
            <==> AgreesUpTo(sha, size, cache, s, n) && AgreesAt(sha, size, cache, s, n)
  {
    if AgreesUpTo(sha, size, cache, s, n + 1) {
      assert AgreesAt(sha, size, cache, s, n);
    }
  }

  lemma SnocEqual(a: seq<Entry>, x: Entry, b: seq<Entry>, y: Entry)
    requires |a| == |b|
    ensures a + [x] == b + [y] <==> a == b && x == y
  {
    if a + [x] == b + [y] {
      assert a == (a + [x])[..|a|] && b == (b + [y])[..|b|];
      assert (a + [x])[|a|] == (b + [y])[|b|];
    }
  }

  /** Sorting tells apart what differs, as long as the paths are the same and distinct. */
  lemma SortTells(a: seq<Entry>, b: seq<Entry>)
    requires |a| == |b| && (forall k | 0 <= k < |a| :: a[k].path == b[k].path) && DistinctPaths(b)
    ensures SortByPath(a) == SortByPath(b) <==> a == b
  {
    if SortByPath(a) == SortByPath(b) {
      SortMembers(a);
      SortMembers(b);
      forall k | 0 <= k < |a|
        ensures a[k] == b[k]
      {
        assert a[k] in a;
        assert a[k] in SortByPath(b);
        var j :| 0 <= j < |b| && b[j] == a[k];
        assert b[j].path == b[k].path;
      }
    }
  }

  /**
   The exact condition, for every coherent state and every store, whatever the clock: the build
   from the cache records what a full read records if and only if no walked and recorded name of
   the inode carries in the cache the stamp the store leaves, with other digests than the new
   content's.
   */
  lemma StoreIsNoticedUnlessMasked(sha: Bytes -> Digest, size: nat, w: World, ino: nat, data: Inode)
    requires size > 0 && Coherent(sha, size, w)
    ensures var w' := Do(sha, size, w, Store(ino, data));
            && Linked(w'.disk)
            && (BuiltEntries(sha, size, w'.cache, Freeze(w'.disk)) == FullEntries(sha, size, Freeze(w'.disk))
                <==> !Missed(sha, size, w, ino, data))
  {
    var w' := Do(sha, size, w, Store(ino, data));
    assert Linked(w'.disk);
    var s := Freeze(w'.disk);
    forall i | 0 <= i < |s.walk|
      ensures EntryOf(sha, size, w.cache, s.walk[i], s.nodes[s.walk[i]]).path == Join(s.walk[i])
      ensures AgreesAt(sha, size, w.cache, s, i) <==> !MaskedAt(sha, size, w, ino, data, i)
    {
      PathAgrees(sha, size, w, ino, data, s.walk[i]);
    }
    EntriesAgree(sha, size, w.cache, s, |s.walk|);
    SamePaths(sha, size, w.cache, s, |s.walk|);
    PathsStayDistinct(sha, size, s, |s.walk|);
    SortTells(Entries(sha, size, w.cache, s, |s.walk|), Entries(sha, size, map[], s, |s.walk|));
  }

  /** Every cached entry was read from one of these contents. */
  ghost predicate ReadFrom(sha: Bytes -> Digest, size: nat, cache: Cache, inPlay: set<Bytes>)
    requires size > 0
  {
    forall key | key in cache :: exists content :: content in inPlay && FormedBy(sha, size, key, cache[key], content)
  }

  /** The `i`-th walked name is one of the inode's, and its cached entry was read from other bytes under this stamp. */
  ghost predicate HidesChange(sha: Bytes -> Digest, size: nat, w: World, ino: nat, data: Inode, i: nat, was: Bytes)
    requires Linked(w.disk) && size > 0
  {
    && i < |w.disk.walk| && w.disk.tree[w.disk.walk[i]] == FileAt(ino) && Includes(w.disk.walk[i])
    && var key := Join(w.disk.walk[i]);
       && key in w.cache && w.cache[key].stamp == StampLeft(ino, data)
       && FormedBy(sha, size, key, w.cache[key], was) && was != data.content
  }

  /** Among contents that do not collide, a store is missed exactly if it changes bytes under a cached stamp. */
  lemma MissedIsHiddenChange(sha: Bytes -> Digest, size: nat, w: World, ino: nat, data: Inode, inPlay: set<Bytes>)
    requires size > 0 && Linked(w.disk) && CollisionFree(sha, inPlay)
    requires data.content in inPlay && ReadFrom(sha, size, w.cache, inPlay)
    ensures Missed(sha, size, w, ino, data)
            <==> exists i: nat, was :: was in inPlay && HidesChange(sha, size, w, ino, data, i, was)
  {
    if Missed(sha, size, w, ino, data) {
      var i: nat :| MaskedAt(sha, size, w, ino, data, i);
      var was := ReadBefore(sha, size, w, ino, data, i, inPlay);
      assert HidesChange(sha, size, w, ino, data, i, was);
    }
    if i: nat, was :| was in inPlay && HidesChange(sha, size, w, ino, data, i, was) {
      ChangeIsMasked(sha, size, w, ino, data, i, was, inPlay);
    }
  }

  lemma ReadBefore(sha: Bytes -> Digest, size: nat, w: World, ino: nat, data: Inode, i: nat, inPlay: set<Bytes>)
      returns (was: Bytes)
    requires size > 0 && Linked(w.disk) && MaskedAt(sha, size, w, ino, data, i) && ReadFrom(sha, size, w.cache, inPlay)
    ensures was in inPlay && HidesChange(sha, size, w, ino, data, i, was)
  {
    var key := Join(w.disk.walk[i]);
    was :| was in inPlay && FormedBy(sha, size, key, w.cache[key], was);
  }

  lemma ChangeIsMasked(sha: Bytes -> Digest, size: nat, w: World, ino: nat, data: Inode, i: nat, was: Bytes,
                       inPlay: set<Bytes>)
    requires size > 0 && Linked(w.disk) && HidesChange(sha, size, w, ino, data, i, was)
    requires CollisionFree(sha, inPlay) && was in inPlay && data.content in inPlay
    ensures MaskedAt(sha, size, w, ino, data, i)
  {
    var key := Join(w.disk.walk[i]);
    DescribesOnlyItsOwn(sha, size, key, w.cache[key], was, data.content);
  }

  // ------------------------------------------------------------ it does happen

  /** One act of an honest history. */
  lemma OneAct(sha: Bytes -> Digest, size: nat, w: World, a: Act, rest: seq<Act>)
    requires size > 0 && Linked(w.disk) && Enabled(w, a) && Honest(sha, size, Do(sha, size, w, a), rest)
    ensures Linked(Do(sha, size, w, a).disk)
    ensures Honest(sha, size, w, [a] + rest)
    ensures After(sha, size, w, [a] + rest) == After(sha, size, Do(sha, size, w, a), rest)
  {
    assert ([a] + rest)[1..] == rest;
  }

  /** A workspace of one file. */
  function OneFile(p: Path, now: int, i: Inode, cache: Cache, pending: set<Cache>): World
  {
    World(now, Disk(map[7 := i], map[p := FileAt(7)], [p]), cache, pending)
  }

  function Written(content: Bytes): Inode { Inode(content, 420, 0, 0) }

  /** What a build of that workspace offers as the next baseline. */
  function Baseline(sha: Bytes -> Digest, size: nat, p: Path, content: Bytes): Cache
    requires size > 0
  {
    var n := File(content, 420, 0, 0, 7);
    map[Join(p) := Cached(StampOf(n), FileEntry(sha, size, Join(p), n))]
  }

  lemma OneFileStamps(sha: Bytes -> Digest, size: nat, p: Path, content: Bytes)
    requires size > 0 && Proper(p) && Includes(p)
    ensures var w := OneFile(p, RACY_WINDOW + 1, Written(content), map[], {});
            && Linked(w.disk)
            && Stamps(sha, size, map[], Freeze(w.disk), w.now, 1) == Baseline(sha, size, p, content)
  {
    var w := OneFile(p, RACY_WINDOW + 1, Written(content), map[], {});
    var s := Freeze(w.disk);
    assert s.nodes[p] == File(content, 420, 0, 0, 7);
    assert Stamps(sha, size, map[], s, w.now, 0) == map[];
  }

  /** Write a file, let the window pass, build and commit: the cache carries its stamp. */
  lemma CommittedOnce(sha: Bytes -> Digest, size: nat, p: Path, content: Bytes) returns (w0: World, acts: seq<Act>)
    requires size > 0 && Proper(p) && Includes(p)
    ensures Linked(w0.disk) && w0.cache == map[] && w0.pending == {} && Honest(sha, size, w0, acts)
    ensures After(sha, size, w0, acts)
            == OneFile(p, RACY_WINDOW + 1, Written(content), Baseline(sha, size, p, content),
                       {Baseline(sha, size, p, content)})
  {
    var baseline := Baseline(sha, size, p, content);
    w0 := OneFile(p, 0, Written([]), map[], {});
    var w1 := OneFile(p, 0, Written(content), map[], {});
    var w2 := OneFile(p, RACY_WINDOW + 1, Written(content), map[], {});
    var w3 := OneFile(p, RACY_WINDOW + 1, Written(content), map[], {baseline});
    var w4 := OneFile(p, RACY_WINDOW + 1, Written(content), baseline, {baseline});
    OneFileStamps(sha, size, p, content);
    assert Do(sha, size, w0, Store(7, Written(content))) == w1;
    assert Do(sha, size, w1, Wait(RACY_WINDOW + 1)) == w2;
    assert Do(sha, size, w2, BuildNow) == w3;
    assert Do(sha, size, w3, CommitBuild(baseline)) == w4;
    OneAct(sha, size, w3, CommitBuild(baseline), []);
    OneAct(sha, size, w2, BuildNow, [CommitBuild(baseline)] + []);
    OneAct(sha, size, w1, Wait(RACY_WINDOW + 1), [BuildNow] + ([CommitBuild(baseline)] + []));
    acts := [Store(7, Written(content))] + ([Wait(RACY_WINDOW + 1)] + ([BuildNow] + ([CommitBuild(baseline)] + [])));
    OneAct(sha, size, w0, Store(7, Written(content)),
           [Wait(RACY_WINDOW + 1)] + ([BuildNow] + ([CommitBuild(baseline)] + [])));
  }

  /**
   Without the clock assumption the cache can differ from a full read: after an honest history
   from an empty cache, a rewrite that keeps size, times, inode and mode is missed.
   */
  lemma StaleStampIsReused(sha: Bytes -> Digest, size: nat, p: Path, first: Bytes, second: Bytes)
      returns (w0: World, acts: seq<Act>, rewrite: Act)
    requires size > 0 && Proper(p) && Includes(p) && |first| == |second| && sha(first) != sha(second)
    ensures Linked(w0.disk) && w0.cache == map[] && w0.pending == {} && Honest(sha, size, w0, acts)
    ensures var w := After(sha, size, w0, acts);
            var w' := Do(sha, size, w, rewrite);
            && rewrite.Store? && !Enabled(w, rewrite) && Linked(w'.disk)
            && BuiltEntries(sha, size, w'.cache, Freeze(w'.disk)) != FullEntries(sha, size, Freeze(w'.disk))
  {
    w0, acts := CommittedOnce(sha, size, p, first);
    var w := After(sha, size, w0, acts);
    rewrite := Store(7, Written(second));
    CoherentAfter(sha, size, w0, acts);
    StoreIsNoticedUnlessMasked(sha, size, w, 7, Written(second));
    assert w.disk.walk[0] == p && MaskedAt(sha, size, w, 7, Written(second), 0);
  }
}
