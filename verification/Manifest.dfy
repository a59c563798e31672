/**
 Manifest entries, chunking, and what one build of the manifest produces, with
 and without the stamp cache.
 */
module Manifest {
  import opened Base
  import opened Paths
  import opened Chunking

  type Digest = string

  /** Digests are written like those of SHA-256. */
  ghost predicate HexDigests(sha: Bytes -> Digest)
  {
    forall x: Bytes :: IsDigest(sha(x))
  }

  /** No two of these contents have the same digest. */
  predicate CollisionFree(sha: Bytes -> Digest, inPlay: set<Bytes>)
  {
    forall x, y | x in inPlay && y in inPlay && sha(x) == sha(y) :: x == y
  }

  predicate IsDigest(d: string)
  {
    |d| == 64 && forall i | 0 <= i < 64 :: '0' <= d[i] <= '9' || 'a' <= d[i] <= 'f'
  }

  // -------------------------------------------------------------- the disk

  /** What `lstat`, `readlink` and a read of the file report for one path. */
  datatype Node =
    | File(content: Bytes, mode: nat, mtime: int, ctime: int, ino: nat)
    | Directory(mode: nat, mtime: int)
    | Symlink(target: string, mode: nat, mtime: int)

  /** A frozen workspace: its nodes and the order the walk lists them in. */
  datatype Snapshot = Snapshot(nodes: map<Path, Node>, walk: seq<Path>)
  {
    predicate Listed()
    {
      && (forall p | p in nodes :: Proper(p))
      && (forall i | 0 <= i < |walk| :: walk[i] in nodes)
      && (forall i, j | 0 <= i < j < |walk| :: walk[i] != walk[j])
    }
  }

  /** The pieces of the files a manifest of this workspace records. */
  ghost function PiecesOf(s: Snapshot, size: nat): set<Bytes>
    requires size > 0
  {
    set p, x | p in s.nodes && p != [] && Includes(p) && s.nodes[p].File? && x in Pieces(s.nodes[p].content, size) :: x
  }

  /** How many bytes UTF-8 takes for a text. */
  function Utf8Length(text: string): nat
  {
    if text == "" then 0
    else
      var c := text[0] as int;
      (if c < 0x80 then 1 else if c < 0x800 then 2 else if c < 0x10000 then 3 else 4) + Utf8Length(text[1..])
  }

  // --------------------------------------------------------------- entries

  datatype Kind = FileKind | DirectoryKind | SymlinkKind

  datatype Entry = Entry(
    path: string, kind: Kind, mode: nat, mtime: int, size: nat,
    digest: Option<Digest>, chunks: seq<Digest>, target: Option<string>)

  /** `_FileStamp`: equal stamps let a file's previous entry be reused unread. */
  datatype Stamp = Stamp(size: nat, mtime: int, ctime: int, ino: nat, mode: nat)

  datatype Cached = Cached(stamp: Stamp, entry: Entry)

  type Cache = map<string, Cached>

  const RACY_WINDOW: int := 2_000_000_000

  function StampOf(n: Node): Stamp
    requires n.File?
  {
    Stamp(|n.content|, n.mtime, n.ctime, n.ino, n.mode)
  }

  function Digests(sha: Bytes -> Digest, pieces: seq<Bytes>): (ds: seq<Digest>)
    ensures |ds| == |pieces| && forall i | 0 <= i < |ds| :: ds[i] == sha(pieces[i])
  {
    seq(|pieces|, i requires 0 <= i < |pieces| => sha(pieces[i]))
  }

  /** The entry a full read of the file gives. */
  function FileEntry(sha: Bytes -> Digest, size: nat, key: string, n: Node): Entry
    requires n.File? && size > 0
  {
    Entry(key, FileKind, n.mode, n.mtime, |n.content|, Some(sha(n.content)),
          Digests(sha, Pieces(n.content, size)), None)
  }

  /** Whether the manifest records this node at all. */
  predicate Recorded(p: Path, n: Node)
    requires p != []
  {
    Includes(p) && (n.Symlink? ==> StaysInside(p, n.target))
  }

  predicate Reuses(cache: Cache, key: string, n: Node)
    requires n.File?
  {
    key in cache && cache[key].stamp == StampOf(n)
  }

  /** The entry one build records for a node, taking unchanged files from the cache. */
  function EntryOf(sha: Bytes -> Digest, size: nat, cache: Cache, p: Path, n: Node): Entry
    requires size > 0
  {
    var key := Join(p);
    match n
    case Directory(mode, mtime) => Entry(key, DirectoryKind, mode, mtime, 0, None, [], None)
    case Symlink(target, mode, mtime) =>
      Entry(key, SymlinkKind, mode, mtime, Utf8Length(target), None, [], Some(target))
    case File(_, _, _, _, _) => if Reuses(cache, key, n) then cache[key].entry else FileEntry(sha, size, key, n)
  }

  // ------------------------------------------------ what one build collects

  /** The entries of the walked prefix, in walk order. */
  function Entries(sha: Bytes -> Digest, size: nat, cache: Cache, s: Snapshot, walked: nat): (es: seq<Entry>)
    requires s.Listed() && walked <= |s.walk| && size > 0
  {
    if walked == 0 then []
    else
      var p := s.walk[walked - 1];
      var before := Entries(sha, size, cache, s, walked - 1);
      if Recorded(p, s.nodes[p]) then before + [EntryOf(sha, size, cache, p, s.nodes[p])] else before
  }

  function AddPieces(sha: Bytes -> Digest, chunks: map<Digest, Bytes>, pieces: seq<Bytes>): map<Digest, Bytes>
    decreases |pieces|
  {
    if pieces == [] then chunks
    else
      var last := pieces[|pieces| - 1];
      var before := AddPieces(sha, chunks, pieces[..|pieces| - 1]);
      if sha(last) in before then before else before[sha(last) := last]
  }

  /** The chunks of every file that was actually read. */
  function Chunks(sha: Bytes -> Digest, size: nat, cache: Cache, s: Snapshot, walked: nat): map<Digest, Bytes>
    requires s.Listed() && walked <= |s.walk| && size > 0
  {
    if walked == 0 then map[]
    else
      var p := s.walk[walked - 1];
      var n := s.nodes[p];
      var before := Chunks(sha, size, cache, s, walked - 1);
      if Recorded(p, n) && n.File? && !Reuses(cache, Join(p), n)
      then AddPieces(sha, before, Pieces(n.content, size))
      else before
  }

  /** What one recorded file adds to the next baseline. */
  function StampedFile(sha: Bytes -> Digest, size: nat, cache: Cache, before: Cache, p: Path, n: Node, now: int): Cache
    requires n.File? && size > 0
  {
    var key := Join(p);
    if Reuses(cache, key, n) then before[key := cache[key]]
    else if n.mtime < now - RACY_WINDOW && n.ctime < now - RACY_WINDOW
    then before[key := Cached(StampOf(n), FileEntry(sha, size, key, n))]
    else before
  }

  /** The baseline offered to the next build: reused entries, and read files that were not racy. */
  function Stamps(sha: Bytes -> Digest, size: nat, cache: Cache, s: Snapshot, now: int, walked: nat): Cache
    requires s.Listed() && walked <= |s.walk| && size > 0
  {
    if walked == 0 then map[]
    else
      var p := s.walk[walked - 1];
      var n := s.nodes[p];
      var before := Stamps(sha, size, cache, s, now, walked - 1);
      if Recorded(p, n) && n.File? then StampedFile(sha, size, cache, before, p, n, now) else before
  }

  // --------------------------------------------------------------- sorting

  predicate Sorted(es: seq<Entry>)
  {
    forall i, j | 0 <= i < j < |es| :: Less(es[i].path, es[j].path)
  }

  function Insert(e: Entry, es: seq<Entry>): seq<Entry>
  {
    if es == [] || Less(e.path, es[0].path) then [e] + es else [es[0]] + Insert(e, es[1..])
  }

  /** Entries by path, as `sorted(entries, key=path)` orders them. */
  function SortByPath(es: seq<Entry>): seq<Entry>
  {
    if es == [] then [] else Insert(es[|es| - 1], SortByPath(es[..|es| - 1]))
  }

  lemma {:induction false} InsertKeeps(e: Entry, es: seq<Entry>)
    ensures multiset(Insert(e, es)) == multiset(es) + multiset{e}
    ensures |Insert(e, es)| == |es| + 1
    decreases |es|
  {
    if es != [] && !Less(e.path, es[0].path) {
      InsertKeeps(e, es[1..]);
      assert es == [es[0]] + es[1..];
    }
  }

  lemma InsertMembers(e: Entry, es: seq<Entry>, x: Entry)
    ensures x in Insert(e, es) <==> x == e || x in es
  {
    InsertKeeps(e, es);
    assert x in Insert(e, es) <==> x in multiset(Insert(e, es));
    assert x in es <==> x in multiset(es);
  }

  lemma {:induction false} InsertSorts(e: Entry, es: seq<Entry>)
    requires Sorted(es) && forall x | x in es :: x.path != e.path
    ensures Sorted(Insert(e, es))
    decreases |es|
  {
    if es == [] {
    } else if Less(e.path, es[0].path) {
      forall k | 0 < k < |es|
        ensures Less(e.path, es[k].path)
      {
        LessTransitive(e.path, es[0].path, es[k].path);
      }
    } else {
      InsertSorts(e, es[1..]);
      assert es[0] in es;
      LessTotal(e.path, es[0].path);
      var tail := Insert(e, es[1..]);
      forall k | 0 <= k < |tail|
        ensures Less(es[0].path, tail[k].path)
      {
        assert tail[k] in tail;
        InsertMembers(e, es[1..], tail[k]);
      }
    }
  }

  predicate DistinctPaths(es: seq<Entry>)
  {
    forall i, j | 0 <= i < j < |es| :: es[i].path != es[j].path
  }

  lemma {:induction false} SortKeeps(es: seq<Entry>)
    ensures multiset(SortByPath(es)) == multiset(es) && |SortByPath(es)| == |es|
    decreases |es|
  {
    if es != [] {
      var front, last := es[..|es| - 1], es[|es| - 1];
      SortKeeps(front);
      InsertKeeps(last, SortByPath(front));
      assert es == front + [last];
    }
  }

  lemma SortMembers(es: seq<Entry>)
    ensures forall x :: x in SortByPath(es) <==> x in es
  {
    SortKeeps(es);
    forall x
      ensures x in SortByPath(es) <==> x in es
    {
      assert x in SortByPath(es) <==> x in multiset(SortByPath(es));
      assert x in es <==> x in multiset(es);
    }
  }

  lemma {:induction false} SortOrders(es: seq<Entry>)
    requires DistinctPaths(es)
    ensures Sorted(SortByPath(es))
    decreases |es|
  {
    if es != [] {
      var front, last := es[..|es| - 1], es[|es| - 1];
      SortOrders(front);
      SortMembers(front);
      InsertSorts(last, SortByPath(front));
    }
  }

  /** Sorting keeps exactly the entries it was given; distinct paths come out strictly increasing. */
  lemma SortByPathSorts(es: seq<Entry>)
    ensures multiset(SortByPath(es)) == multiset(es)
    ensures forall x :: x in SortByPath(es) <==> x in es
    ensures |SortByPath(es)| == |es|
    ensures DistinctPaths(es) ==> Sorted(SortByPath(es))
  {
    SortKeeps(es);
    SortMembers(es);
    if DistinctPaths(es) {
      SortOrders(es);
    }
  }
}
