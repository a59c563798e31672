/**
 Checkpoint and restore undo each other: what a full read of the workspace
 records is what decoding and materializing the printed manifest puts back.
 */
module RoundTrip {
  import opened Base
  import opened Paths
  import opened Chunking
  import opened Manifest
  import opened Builder
  import opened DurableStore
  import opened Decoder
  import opened Materialize
  import Utf8

  /** A frozen POSIX tree: the walk lists every node, modes are permission bits, only directories have children. */
  ghost predicate WellFormed(s: Snapshot)
  {
    && s.Listed()
    && (forall p | p in s.nodes :: exists i | 0 <= i < |s.walk| :: s.walk[i] == p)
    && (forall p | p in s.nodes :: s.nodes[p].mode <= MAX_MODE)
    && (forall p, q | p in s.nodes && q in s.nodes && StrictPrefix(q, p) :: s.nodes[q].Directory?)
  }

  /** What restoring a node should give back. */
  function RestoredOf(n: Node): Restored
  {
    match n
    case File(content, mode, mtime, _, _) => RFile(content, mode, mtime)
    case Directory(mode, mtime) => RDirectory(Some((mode, mtime)))
    case Symlink(target, _, mtime) => RLink(target, mtime)
  }

  /** The tree holds the recorded nodes, every one of them, and otherwise only bare parents of theirs. */
  ghost predicate RestoresExactly(tree: Tree, s: Snapshot)
    requires s.Listed()
  {
    && (forall p | p in s.nodes && Recorded(p, s.nodes[p]) :: p in tree && tree[p] == RestoredOf(s.nodes[p]))
    && (forall p, q | p in s.nodes && Recorded(p, s.nodes[p]) && StrictPrefix(q, p) :: q in tree)
    && (forall q | q in tree && !(q in s.nodes && Recorded(q, s.nodes[q])) ::
          && tree[q] == RDirectory(None)
          && exists p :: p in s.nodes && Recorded(p, s.nodes[p]) && StrictPrefix(q, p))
  }

  /** The manifest entries of a full read, in manifest order. */
  function FullEntries(sha: Bytes -> Digest, size: nat, s: Snapshot): seq<Entry>
    requires s.Listed() && size > 0
  {
    BuiltEntries(sha, size, map[], s)
  }

  // --------------------------------------------------- entries and their nodes

  /** `e` is the entry of the `i`-th walked node. */
  predicate From(sha: Bytes -> Digest, size: nat, s: Snapshot, i: nat, e: Entry)
    requires s.Listed() && size > 0
  {
    && i < |s.walk|
    && Recorded(s.walk[i], s.nodes[s.walk[i]])
    && e == EntryOf(sha, size, map[], s.walk[i], s.nodes[s.walk[i]])
  }

  ghost predicate Owned(sha: Bytes -> Digest, size: nat, s: Snapshot, walked: nat, e: Entry)
    requires s.Listed() && size > 0
  {
    exists i: nat | i < walked :: From(sha, size, s, i, e)
  }

  lemma {:induction false} EntriesAreOwned(sha: Bytes -> Digest, size: nat, s: Snapshot, walked: nat)
    requires s.Listed() && walked <= |s.walk| && size > 0
    ensures forall e | e in Entries(sha, size, map[], s, walked) :: Owned(sha, size, s, walked, e)
    decreases walked
  {
    if walked > 0 {
      EntriesAreOwned(sha, size, s, walked - 1);
      forall e | e in Entries(sha, size, map[], s, walked)
        ensures Owned(sha, size, s, walked, e)
      {
        if e in Entries(sha, size, map[], s, walked - 1) {
          assert Owned(sha, size, s, walked - 1, e);
        } else {
          assert From(sha, size, s, walked - 1, e);
        }
      }
    }
  }

  lemma {:induction false} EveryNodeHasItsEntry(sha: Bytes -> Digest, size: nat, s: Snapshot, walked: nat, i: nat)
    requires s.Listed() && i < walked <= |s.walk| && size > 0
    requires Recorded(s.walk[i], s.nodes[s.walk[i]])
    ensures EntryOf(sha, size, map[], s.walk[i], s.nodes[s.walk[i]]) in Entries(sha, size, map[], s, walked)
    decreases walked
  {
    if i < walked - 1 {
      EveryNodeHasItsEntry(sha, size, s, walked - 1, i);
    }
  }

  lemma {:induction false} PathsStayDistinct(sha: Bytes -> Digest, size: nat, s: Snapshot, walked: nat)
    requires s.Listed() && walked <= |s.walk| && size > 0
    ensures DistinctPaths(Entries(sha, size, map[], s, walked))
    decreases walked
  {
    if walked > 0 {
      PathsStayDistinct(sha, size, s, walked - 1);
      var before := Entries(sha, size, map[], s, walked - 1);
      var p := s.walk[walked - 1];
      EntriesAreOwned(sha, size, s, walked - 1);
      forall k | 0 <= k < |before|
        ensures before[k].path != Join(p)
      {
        assert before[k] in before;
        var i: nat :| i < walked - 1 && From(sha, size, s, i, before[k]);
        if Join(s.walk[i]) == Join(p) {
          JoinInjective(s.walk[i], p);
        }
      }
    }
  }

  /** A full build lists each recorded node once, in strictly increasing order of path. */
  lemma FullEntriesListTheNodes(sha: Bytes -> Digest, size: nat, s: Snapshot)
    requires s.Listed() && size > 0
    ensures Sorted(FullEntries(sha, size, s))
    ensures forall e | e in FullEntries(sha, size, s) :: Owned(sha, size, s, |s.walk|, e)
    ensures forall i | 0 <= i < |s.walk| && Recorded(s.walk[i], s.nodes[s.walk[i]]) ::
              EntryOf(sha, size, map[], s.walk[i], s.nodes[s.walk[i]]) in FullEntries(sha, size, s)
  {
    var es := Entries(sha, size, map[], s, |s.walk|);
    SortByPathSorts(es);
    PathsStayDistinct(sha, size, s, |s.walk|);
    EntriesAreOwned(sha, size, s, |s.walk|);
    forall i | 0 <= i < |s.walk| && Recorded(s.walk[i], s.nodes[s.walk[i]])
      ensures EntryOf(sha, size, map[], s.walk[i], s.nodes[s.walk[i]]) in es
    {
      EveryNodeHasItsEntry(sha, size, s, |s.walk|, i);
    }
  }

  /** The size recorded for a link is the length of its target in bytes. */
  lemma {:induction false} LinkSizeIsItsBytes(target: string)
    ensures Utf8Length(target) == |Utf8.Encode(target)|
    decreases |target|
  {
    if target != "" {
      LinkSizeIsItsBytes(target[1..]);
    }
  }

  /** What a full read says of a node: all that identifies its state, and for a file what its content is. */
  lemma EntryDescribesNode(sha: Bytes -> Digest, size: nat, p: Path, n: Node)
    requires size > 0
    ensures var e := EntryOf(sha, size, map[], p, n);
            && e.path == Join(p) && e.mode == n.mode && e.mtime == n.mtime
            && (n.File? ==>
                  && e.kind == FileKind && e.size == |n.content| && e.digest == Some(sha(n.content)) && e.target == None
                  && e.chunks == Digests(sha, Pieces(n.content, size)))
            && (n.Directory? ==>
                  e.kind == DirectoryKind && e.size == 0 && e.digest == None && e.chunks == [] && e.target == None)
            && (n.Symlink? ==>
                  && e.kind == SymlinkKind && e.size == |Utf8.Encode(n.target)| && e.digest == None && e.chunks == []
                  && e.target == Some(n.target))
  {
    if n.Symlink? {
      LinkSizeIsItsBytes(n.target);
    }
  }

  // ------------------------------------------------------- printing, decoding

  /** A built entry decodes to itself exactly when its time is not before 1970. */
  lemma EntryRoundTrip(sha: Bytes -> Digest, size: nat, p: Path, n: Node)
    requires size > 0 && HexDigests(sha) && Proper(p) && Recorded(p, n) && n.mode <= MAX_MODE
    ensures n.mtime >= 0 ==>
              DecodeEntry(AsRaw(EntryOf(sha, size, map[], p, n))) == Ok(Some(EntryOf(sha, size, map[], p, n)))
    ensures n.mtime < 0 ==> DecodeEntry(AsRaw(EntryOf(sha, size, map[], p, n))).Err?
  {
    SplitJoin(p);
    var e := EntryOf(sha, size, map[], p, n);
    assert Split(e.path) == p;
    assert GoodMetadata(AsRaw(e)) <==> n.mtime >= 0;
    assert n.mtime >= 0 ==> GoodShape(AsRaw(e));
  }

  predicate Undone(decode: EntryDecoder, es: seq<Entry>)
  {
    forall i | 0 <= i < |es| :: decode(AsRaw(es[i])) == Ok(Some(es[i]))
  }

  lemma {:induction false} KeptIsAll(decode: EntryDecoder, es: seq<Entry>, n: nat)
    requires n <= |es| && Undone(decode, es)
    ensures Kept(decode, AllRaw(es), n) == es[..n]
    decreases n
  {
    if n > 0 {
      KeptIsAll(decode, es, n - 1);
    }
  }

  lemma UndoneIsAcceptable(decode: EntryDecoder, es: seq<Entry>)
    requires Undone(decode, es) && Sorted(es)
    ensures Acceptable(decode, AllRaw(es)) <==> TotalSize(es) <= MAX_BYTES
    ensures Kept(decode, AllRaw(es), |es|) == es
  {
    KeptIsAll(decode, es, |es|);
    assert es[..|es|] == es;
  }

  /** What the decoder demands beyond what the builder guarantees. */
  predicate WithinLimits(es: seq<Entry>)
  {
    |es| <= MAX_FILES && TotalSize(es) <= MAX_BYTES && forall i | 0 <= i < |es| :: es[i].mtime >= 0
  }

  /** Each entry of a full build either decodes to itself or is refused for its time. */
  lemma BuiltEntriesDecode(sha: Bytes -> Digest, size: nat, s: Snapshot)
    requires WellFormed(s) && size > 0 && HexDigests(sha)
    ensures forall e | e in FullEntries(sha, size, s) ::
              && (e.mtime >= 0 ==> DecodeEntry(AsRaw(e)) == Ok(Some(e)))
              && (e.mtime < 0 ==> DecodeEntry(AsRaw(e)).Err?)
  {
    FullEntriesListTheNodes(sha, size, s);
    forall e | e in FullEntries(sha, size, s)
      ensures e.mtime >= 0 ==> DecodeEntry(AsRaw(e)) == Ok(Some(e))
      ensures e.mtime < 0 ==> DecodeEntry(AsRaw(e)).Err?
    {
      assert Owned(sha, size, s, |s.walk|, e);
      var i: nat :| i < |s.walk| && From(sha, size, s, i, e);
      EntryRoundTrip(sha, size, s.walk[i], s.nodes[s.walk[i]]);
    }
  }

  lemma AcceptsBuilt(decode: EntryDecoder, es: seq<Entry>)
    requires Sorted(es)
    requires forall e | e in es ::
              (e.mtime >= 0 ==> decode(AsRaw(e)) == Ok(Some(e))) && (e.mtime < 0 ==> decode(AsRaw(e)).Err?)
    ensures (|es| <= MAX_FILES && Acceptable(decode, AllRaw(es))) <==> WithinLimits(es)
    ensures WithinLimits(es) ==> Kept(decode, AllRaw(es), |es|) == es
  {
    if forall i | 0 <= i < |es| :: es[i].mtime >= 0 {
      UndoneIsAcceptable(decode, es);
    } else {
      var i :| 0 <= i < |es| && es[i].mtime < 0;
      assert AllRaw(es)[i] == AsRaw(es[i]) && es[i] in es;
    }
  }

  /**
   The decoder accepts what the builder printed exactly when it is within the limits, and
   then returns it unchanged.
   */
  lemma PrintThenDecode(sha: Bytes -> Digest, size: nat, s: Snapshot, id: string, generation: nat, at: string)
    requires WellFormed(s) && size > 0 && HexDigests(sha)
    ensures Accepts(Printed(FullEntries(sha, size, s), id, generation, at), id, generation)
            <==> WithinLimits(FullEntries(sha, size, s))
    ensures WithinLimits(FullEntries(sha, size, s)) ==>
              var es := FullEntries(sha, size, s);
              Kept(DecodeEntry, AllRaw(es), |es|) == es
  {
    var es := FullEntries(sha, size, s);
    BuiltEntriesDecode(sha, size, s);
    FullEntriesListTheNodes(sha, size, s);
    AcceptsBuilt(DecodeEntry, es);
    AcceptsPrinted(es, id, generation, at);
  }

  lemma AcceptsPrinted(es: seq<Entry>, id: string, generation: nat, at: string)
    ensures Accepts(Printed(es, id, generation, at), id, generation)
            <==> |es| <= MAX_FILES && Acceptable(DecodeEntry, AllRaw(es))
  {
  }

  // ----------------------------------------------------------------- content

  predicate Addressed(sha: Bytes -> Digest, chunks: map<Digest, Bytes>)
  {
    forall d | d in chunks :: sha(chunks[d]) == d
  }

  /** Under its digest each of these pieces finds itself. */
  predicate Genuine(sha: Bytes -> Digest, pieces: seq<Bytes>, chunks: map<Digest, Bytes>)
  {
    forall i | 0 <= i < |pieces| && sha(pieces[i]) in chunks :: chunks[sha(pieces[i])] == pieces[i]
  }

  lemma CollisionFreeIsGenuine(sha: Bytes -> Digest, pieces: seq<Bytes>, chunks: map<Digest, Bytes>,
                               inPlay: set<Bytes>)
    requires CollisionFree(sha, inPlay) && Addressed(sha, chunks) && chunks.Values <= inPlay
    requires forall x | x in pieces :: x in inPlay
    ensures Genuine(sha, pieces, chunks)
  {
    forall i | 0 <= i < |pieces| && sha(pieces[i]) in chunks
      ensures chunks[sha(pieces[i])] == pieces[i]
    {
      assert pieces[i] in inPlay && chunks[sha(pieces[i])] in chunks.Values;
    }
  }

  lemma {:induction false} WholeOfPieces(sha: Bytes -> Digest, pieces: seq<Bytes>, chunks: map<Digest, Bytes>)
    requires Genuine(sha, pieces, chunks) && Available(Digests(sha, pieces), chunks)
    ensures Whole(Digests(sha, pieces), chunks) == Concat(pieces)
    decreases |pieces|
  {
    if pieces == [] {
      assert Digests(sha, pieces) == [];
    } else {
      var front, last := pieces[..|pieces| - 1], pieces[|pieces| - 1];
      var ds := Digests(sha, pieces);
      assert ds[..|ds| - 1] == Digests(sha, front);
      assert ds[|ds| - 1] in chunks && chunks[sha(last)] == last;
      WholeOfPieces(sha, front, chunks);
      ConcatSnoc(front, last);
      assert pieces == front + [last];
    }
  }

  /** The durable chunks of a file's entry give back the file. */
  lemma FileComesBack(sha: Bytes -> Digest, size: nat, key: string, n: Node, chunks: map<Digest, Bytes>,
                      inPlay: set<Bytes>)
    requires n.File? && size > 0 && CollisionFree(sha, inPlay) && Addressed(sha, chunks)
    requires chunks.Values <= inPlay && forall x | x in Pieces(n.content, size) :: x in inPlay
    requires Available(FileEntry(sha, size, key, n).chunks, chunks)
    ensures Restorable(sha, FileEntry(sha, size, key, n), chunks)
    ensures Object(FileEntry(sha, size, key, n), chunks) == RestoredOf(n)
  {
    CollisionFreeIsGenuine(sha, Pieces(n.content, size), chunks, inPlay);
    WholeOfPieces(sha, Pieces(n.content, size), chunks);
    ConcatPieces(n.content, size);
  }

  lemma NodeComesBack(sha: Bytes -> Digest, size: nat, p: Path, n: Node, chunks: map<Digest, Bytes>,
                      inPlay: set<Bytes>)
    requires size > 0 && CollisionFree(sha, inPlay) && Addressed(sha, chunks) && chunks.Values <= inPlay
    requires n.File? ==> forall x | x in Pieces(n.content, size) :: x in inPlay
    requires Available(EntryOf(sha, size, map[], p, n).chunks, chunks)
    ensures Restorable(sha, EntryOf(sha, size, map[], p, n), chunks)
    ensures Object(EntryOf(sha, size, map[], p, n), chunks) == RestoredOf(n)
    ensures n.Directory? ==> EntryOf(sha, size, map[], p, n).kind == DirectoryKind
  {
    if n.File? {
      FileComesBack(sha, size, Join(p), n, chunks, inPlay);
    }
  }

  // -------------------------------------------------------------- the whole tree

  /** These objects at these paths are the recorded nodes, each of them. */
  ghost predicate Mirrors(paths: seq<Path>, nodes: seq<Restored>, s: Snapshot)
    requires s.Listed()
  {
    && |paths| == |nodes|
    && (forall j | 0 <= j < |paths| ::
          paths[j] in s.nodes && Recorded(paths[j], s.nodes[paths[j]]) && nodes[j] == RestoredOf(s.nodes[paths[j]]))
    && (forall p | p in s.nodes && Recorded(p, s.nodes[p]) :: !Stray(p, paths, |paths|))
  }

  lemma MirroredTreeIsExact(tree: Tree, paths: seq<Path>, nodes: seq<Restored>, s: Snapshot)
    requires s.Listed() && Mirrors(paths, nodes, s) && Holds(tree, paths, nodes, |paths|)
    ensures RestoresExactly(tree, s)
  {
    forall p | p in s.nodes && Recorded(p, s.nodes[p])
      ensures p in tree && tree[p] == RestoredOf(s.nodes[p])
      ensures forall q | StrictPrefix(q, p) :: q in tree
    {
      var j :| 0 <= j < |paths| && paths[j] == p;
      assert tree[paths[j]] == nodes[j];
      assert forall q | StrictPrefix(q, p) :: OnTheWay(q, paths[j]);
    }
    forall q | q in tree && !(q in s.nodes && Recorded(q, s.nodes[q]))
      ensures tree[q] == RDirectory(None)
      ensures exists p :: p in s.nodes && Recorded(p, s.nodes[p]) && StrictPrefix(q, p)
    {
      assert Stray(q, paths, |paths|);
      var j :| 0 <= j < |paths| && StrictPrefix(q, paths[j]);
      assert paths[j] in s.nodes;
    }
  }

  lemma OwnerOf(sha: Bytes -> Digest, size: nat, s: Snapshot, e: Entry) returns (p: Path)
    requires s.Listed() && size > 0 && Owned(sha, size, s, |s.walk|, e)
    ensures p in s.nodes && Proper(p) && Split(e.path) == p && Recorded(p, s.nodes[p])
    ensures e == EntryOf(sha, size, map[], p, s.nodes[p])
  {
    var i: nat :| i < |s.walk| && From(sha, size, s, i, e);
    p := s.walk[i];
    SplitJoin(p);
  }

  lemma AvailableFrom(es: seq<Entry>, e: Entry, chunks: map<Digest, Bytes>)
    requires RefersOnlyTo(es, chunks.Keys) && e in es
    ensures Available(e.chunks, chunks)
  {
    forall i | 0 <= i < |e.chunks|
      ensures e.chunks[i] in chunks
    {
      assert e.chunks[i] in e.chunks;
    }
  }

  lemma SplitsAreDistinct(es: seq<Entry>)
    requires Sorted(es)
    ensures forall j, k | 0 <= j < k < |es| :: PathsOf(es)[j] != PathsOf(es)[k]
  {
    forall j, k | 0 <= j < k < |es|
      ensures PathsOf(es)[j] != PathsOf(es)[k]
    {
      JoinSplit(es[j].path);
      JoinSplit(es[k].path);
      LessIrreflexive(es[j].path);
    }
  }

  /** The node an entry was built from is what restoring the entry gives. */
  lemma OwnedComesBack(sha: Bytes -> Digest, size: nat, s: Snapshot, e: Entry, chunks: map<Digest, Bytes>)
    requires s.Listed() && size > 0 && Owned(sha, size, s, |s.walk|, e) && Available(e.chunks, chunks)
    requires Addressed(sha, chunks) && CollisionFree(sha, PiecesOf(s, size) + chunks.Values)
    ensures var p := Split(e.path);
            && p in s.nodes && Proper(p) && Recorded(p, s.nodes[p])
            && Restorable(sha, e, chunks) && Object(e, chunks) == RestoredOf(s.nodes[p])
            && (s.nodes[p].Directory? ==> e.kind == DirectoryKind)
  {
    var p := OwnerOf(sha, size, s, e);
    NodeComesBack(sha, size, p, s.nodes[p], chunks, PiecesOf(s, size) + chunks.Values);
  }

  lemma EntryComesBack(sha: Bytes -> Digest, size: nat, s: Snapshot, chunks: map<Digest, Bytes>, es: seq<Entry>, j: nat)
    requires s.Listed() && size > 0 && es == FullEntries(sha, size, s) && j < |es|
    requires Addressed(sha, chunks) && CollisionFree(sha, PiecesOf(s, size) + chunks.Values)
    requires RefersOnlyTo(es, chunks.Keys)
    ensures var p := PathsOf(es)[j];
            && p in s.nodes && Proper(p) && Recorded(p, s.nodes[p])
            && Restorable(sha, es[j], chunks) && Object(es[j], chunks) == RestoredOf(s.nodes[p])
            && (s.nodes[p].Directory? ==> es[j].kind == DirectoryKind)
  {
    FullEntriesListTheNodes(sha, size, s);
    assert es[j] in es;
    AvailableFrom(es, es[j], chunks);
    OwnedComesBack(sha, size, s, es[j], chunks);
  }

  /** A full build is something the restore can place, read and recognise. */
  lemma FullEntriesMirror(sha: Bytes -> Digest, size: nat, s: Snapshot, chunks: map<Digest, Bytes>)
    requires WellFormed(s) && size > 0 && Addressed(sha, chunks)
    requires CollisionFree(sha, PiecesOf(s, size) + chunks.Values)
    requires RefersOnlyTo(FullEntries(sha, size, s), chunks.Keys)
    ensures Mirrors(PathsOf(FullEntries(sha, size, s)), Objects(FullEntries(sha, size, s), chunks), s)
    ensures Shaped(FullEntries(sha, size, s), PathsOf(FullEntries(sha, size, s)))
    ensures AllRestorable(sha, FullEntries(sha, size, s), chunks)
  {
    var es := FullEntries(sha, size, s);
    var paths := PathsOf(es);
    forall j | 0 <= j < |es|
      ensures paths[j] in s.nodes && Recorded(paths[j], s.nodes[paths[j]])
      ensures Restorable(sha, es[j], chunks) && Object(es[j], chunks) == RestoredOf(s.nodes[paths[j]])
      ensures s.nodes[paths[j]].Directory? ==> es[j].kind == DirectoryKind
    {
      EntryComesBack(sha, size, s, chunks, es, j);
    }
    forall p | p in s.nodes && Recorded(p, s.nodes[p])
      ensures !Stray(p, paths, |paths|)
    {
      NodeIsListed(sha, size, s, p);
    }
  }

  lemma NodeIsListed(sha: Bytes -> Digest, size: nat, s: Snapshot, p: Path)
    requires WellFormed(s) && size > 0 && p in s.nodes && Recorded(p, s.nodes[p])
    ensures !Stray(p, PathsOf(FullEntries(sha, size, s)), |FullEntries(sha, size, s)|)
  {
    var es := FullEntries(sha, size, s);
    var i :| 0 <= i < |s.walk| && s.walk[i] == p;
    FullEntriesListTheNodes(sha, size, s);
    var e := EntryOf(sha, size, map[], p, s.nodes[p]);
    assert e.path == Join(p);
    SplitJoin(p);
    var j :| 0 <= j < |es| && es[j] == e;
    assert PathsOf(es)[j] == p;
  }

  // ----------------------------------------------------------------- restore

  ghost predicate YieldsProper(decode: EntryDecoder)
  {
    forall raw :: decode(raw).Ok? && decode(raw).value.Some? ==> Proper(Split(decode(raw).value.value.path))
  }

  lemma DecodedIsProper()
    ensures YieldsProper(DecodeEntry)
  {
  }

  lemma {:induction false} KeptIsProper(decode: EntryDecoder, raws: seq<RawEntry>, n: nat)
    requires n <= |raws| && YieldsProper(decode)
    ensures forall e | e in Kept(decode, raws, n) :: Proper(Split(e.path))
    decreases n
  {
    if n > 0 {
      KeptIsProper(decode, raws, n - 1);
    }
  }

  /** The middle of `_restore_generation`: decode the manifest and write it into the stage. */
  method DecodeAndMaterialize(sha: Bytes -> Digest, raw: RawManifest, id: string, generation: nat,
                              chunks: map<Digest, Bytes>) returns (r: Result<Tree, string>)
    ensures r.Ok? ==> Accepts(raw, id, generation)
    ensures r.Ok? ==> var es := Kept(DecodeEntry, raw.entries, |raw.entries|);
                      Holds(r.value, PathsOf(es), Objects(es, chunks), |es|) && AllRestorable(sha, es, chunks)
    // No file is restored with other bytes than those of its recorded size and digest.
    ensures r.Ok? ==> var es := Kept(DecodeEntry, raw.entries, |raw.entries|);
                      forall e | e in es && e.kind == FileKind :: CameBackIntact(sha, r.value, e)
    ensures Accepts(raw, id, generation) ==>
              var es := Kept(DecodeEntry, raw.entries, |raw.entries|);
              Shaped(es, PathsOf(es)) && AllRestorable(sha, es, chunks) ==> r.Ok?
  {
    var decoded := Decode(raw, id, generation);
    if decoded.Err? {
      return Err(decoded.error);
    }
    var es := decoded.value;
    DecodedIsProper();
    KeptIsProper(DecodeEntry, raw.entries, |raw.entries|);
    SplitsAreDistinct(es);
    r := MaterializeAt(sha, es, PathsOf(es), chunks);
    if r.Ok? {
      AllCameBackIntact(sha, es, chunks, r.value);
    }
  }

  lemma AllCameBackIntact(sha: Bytes -> Digest, es: seq<Entry>, chunks: map<Digest, Bytes>, tree: Tree)
    requires Holds(tree, PathsOf(es), Objects(es, chunks), |es|) && AllRestorable(sha, es, chunks)
    ensures forall e | e in es && e.kind == FileKind :: CameBackIntact(sha, tree, e)
  {
    forall e | e in es && e.kind == FileKind
      ensures CameBackIntact(sha, tree, e)
    {
      var j :| 0 <= j < |es| && es[j] == e;
      assert Restorable(sha, es[j], chunks) && tree[PathsOf(es)[j]] == Objects(es, chunks)[j];
    }
  }

  /** At the entry's path is a file of its recorded size, digest, mode and time. */
  predicate CameBackIntact(sha: Bytes -> Digest, tree: Tree, e: Entry)
  {
    && Split(e.path) in tree
    && var o := tree[Split(e.path)];
       o.RFile? && |o.content| == e.size && e.digest == Some(sha(o.content)) && o.mode == e.mode && o.mtime == e.mtime
  }

  /**
   The round trip: for a well-formed workspace whose recorded pieces collide neither with each
   other nor with a durable chunk, restoring the printed full build succeeds exactly within the
   decoder's limits and with every chunk at hand, and puts back exactly the recorded nodes.
   */
  method RestoreBuilt(sha: Bytes -> Digest, raw: RawManifest, id: string, generation: nat, chunks: map<Digest, Bytes>,
                      ghost size: nat, ghost s: Snapshot, ghost at: string) returns (r: Result<Tree, string>)
    requires WellFormed(s) && size > 0 && HexDigests(sha) && Addressed(sha, chunks)
    requires CollisionFree(sha, PiecesOf(s, size) + chunks.Values)
    requires raw == Printed(FullEntries(sha, size, s), id, generation, at)
    ensures r.Ok? <==> WithinLimits(FullEntries(sha, size, s)) && RefersOnlyTo(FullEntries(sha, size, s), chunks.Keys)
    ensures r.Ok? ==> RestoresExactly(r.value, s)
  {
    ghost var es := FullEntries(sha, size, s);
    PrintThenDecode(sha, size, s, id, generation, at);
    r := DecodeAndMaterialize(sha, raw, id, generation, chunks);
    if r.Ok? {
      RestorableRefers(sha, size, s, chunks);
    }
    if RefersOnlyTo(es, chunks.Keys) {
      FullEntriesMirror(sha, size, s, chunks);
      if r.Ok? {
        MirroredTreeIsExact(r.value, PathsOf(es), Objects(es, chunks), s);
      }
    }
  }

  /** Only files name chunks. */
  lemma OnlyFilesNameChunks(sha: Bytes -> Digest, size: nat, s: Snapshot, e: Entry)
    requires s.Listed() && size > 0 && Owned(sha, size, s, |s.walk|, e)
    ensures e.kind != FileKind ==> e.chunks == []
  {
    var _ := OwnerOf(sha, size, s, e);
  }

  /** A build that could be restored had all its chunks. */
  lemma RestorableRefers(sha: Bytes -> Digest, size: nat, s: Snapshot, chunks: map<Digest, Bytes>)
    requires WellFormed(s) && size > 0 && AllRestorable(sha, FullEntries(sha, size, s), chunks)
    ensures RefersOnlyTo(FullEntries(sha, size, s), chunks.Keys)
  {
    var es := FullEntries(sha, size, s);
    FullEntriesListTheNodes(sha, size, s);
    forall e, d | e in es && d in e.chunks
      ensures d in chunks
    {
      OnlyFilesNameChunks(sha, size, s, e);
      var i :| 0 <= i < |es| && es[i] == e;
      assert Restorable(sha, es[i], chunks);
      var k :| 0 <= k < |e.chunks| && e.chunks[k] == d;
    }
  }

  /** What of a generation reaches the container: its manifest, and its chunks but for those lost on the way. */
  datatype Arrival = Arrival(manifest: bool, lost: set<Digest>)

  function Fetched(chunks: map<Digest, Bytes>, lost: set<Digest>): map<Digest, Bytes>
  {
    map d | d in chunks && d !in lost :: chunks[d]
  }

  lemma FetchedIsCollisionFree(sha: Bytes -> Digest, pieces: set<Bytes>, chunks: map<Digest, Bytes>, lost: set<Digest>)
    requires CollisionFree(sha, pieces + chunks.Values) && Addressed(sha, chunks)
    ensures CollisionFree(sha, pieces + Fetched(chunks, lost).Values) && Addressed(sha, Fetched(chunks, lost))
  {
    assert Fetched(chunks, lost).Values <= chunks.Values;
  }

  lemma FetchedRefers(entries: seq<Entry>, chunks: map<Digest, Bytes>, lost: set<Digest>)
    ensures RefersOnlyTo(entries, Fetched(chunks, lost).Keys)
            <==> RefersOnlyTo(entries, chunks.Keys) && Named(entries) !! lost
  {
    NamedIsReferred(entries, chunks.Keys);
    NamedIsReferred(entries, Fetched(chunks, lost).Keys);
    assert Fetched(chunks, lost).Keys == chunks.Keys - lost;
  }

  /** Everything needed arrives. */
  ghost predicate Arrives(entries: seq<Entry>, arrival: Arrival)
  {
    arrival.manifest && Named(entries) !! arrival.lost
  }

  /**
   `_restore_generation`: a generation whose manifest is a full build of a well-formed workspace
   comes back exactly, if and only if it is committed, its manifest is there under the committed
   digest, it is within the decoder's limits, its chunks are there, and nothing it needs is lost
   on the way.
   */
  method RestoreCommitted(store: Store, generation: nat, id: string, at: string, arrival: Arrival,
                          ghost size: nat, ghost s: Snapshot) returns (r: Result<Tree, string>)
    requires store.Valid() && WellFormed(s) && size > 0 && HexDigests(store.sha)
    requires CollisionFree(store.sha, PiecesOf(s, size) + store.chunks.Values)
    requires generation in store.manifests ==> store.manifests[generation].entries == FullEntries(store.sha, size, s)
    ensures r.Ok? <==> && generation in store.commits && generation in store.manifests
                       && store.manifests[generation].digest == store.commits[generation]
                       && WithinLimits(FullEntries(store.sha, size, s))
                       && RefersOnlyTo(FullEntries(store.sha, size, s), store.chunks.Keys)
                       && Arrives(FullEntries(store.sha, size, s), arrival)
    ensures r.Ok? ==> RestoresExactly(r.value, s)
  {
    if generation !in store.commits {
      return Err("Generation is not committed.");
    }
    if !arrival.manifest || generation !in store.manifests {
      return Err("Persistence object operation failed.");
    }
    var blob := store.manifests[generation];
    if blob.digest != store.commits[generation] {
      return Err("Committed manifest digest does not match object.");
    }
    FetchedRefers(blob.entries, store.chunks, arrival.lost);
    FetchedIsCollisionFree(store.sha, PiecesOf(s, size), store.chunks, arrival.lost);
    r := RestoreBuilt(store.sha, Printed(blob.entries, id, generation, at), id, generation,
                      Fetched(store.chunks, arrival.lost), size, s, at);
  }
}
