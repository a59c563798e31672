/**
 `_materialize`: write a decoded manifest into an empty stage, fetching chunks by
 digest, with directory modes and times applied last.
 */
module Materialize {
  import opened Base
  import opened Paths
  import opened Chunking
  import opened Manifest

  /** A restored object; a directory without metadata is a bare parent. */
  datatype Restored =
    | RFile(content: Bytes, mode: nat, mtime: int)
    | RDirectory(meta: Option<(nat, int)>)
    | RLink(target: string, mtime: int)

  type Tree = map<Path, Restored>

  function PathsOf(es: seq<Entry>): (paths: seq<Path>)
    ensures |paths| == |es| && forall i | 0 <= i < |es| :: paths[i] == Split(es[i].path)
  {
    seq(|es|, i requires 0 <= i < |es| => Split(es[i].path))
  }

  predicate StrictPrefix(q: Path, p: Path) { q != [] && q <= p && |q| < |p| }

  predicate OnTheWay(q: Path, p: Path) { q != [] && q <= p }

  /** No object of the first `n` goes here. */
  predicate Stray(q: Path, paths: seq<Path>, n: nat)
    requires n <= |paths|
  {
    forall j | 0 <= j < n :: paths[j] != q
  }

  predicate Above(q: Path, paths: seq<Path>, n: nat)
    requires n <= |paths|
  {
    exists j | 0 <= j < n :: StrictPrefix(q, paths[j])
  }

  /** The stage holds the first `n` objects, their parents, and nothing else. */
  ghost predicate Holds(tree: Tree, paths: seq<Path>, nodes: seq<Restored>, n: nat)
    requires n <= |paths| && n <= |nodes|
  {
    && (forall j | 0 <= j < n :: paths[j] in tree && tree[paths[j]] == nodes[j])
    && (forall j, q | 0 <= j < n && OnTheWay(q, paths[j]) :: q in tree)
    && (forall q {:trigger Stray(q, paths, n)} | Stray(q, paths, n) && q in tree ::
          tree[q] == RDirectory(None) && Above(q, paths, n))
  }

  /** Only directories have anything below them. */
  predicate Shaped(es: seq<Entry>, paths: seq<Path>)
    requires |paths| == |es|
  {
    forall j, k | 0 <= j < |es| && 0 <= k < |es| && StrictPrefix(paths[j], paths[k]) ::
      es[j].kind == DirectoryKind
  }

  predicate Available(digests: seq<Digest>, chunks: map<Digest, Bytes>)
  {
    forall i | 0 <= i < |digests| :: digests[i] in chunks
  }

  function Whole(digests: seq<Digest>, chunks: map<Digest, Bytes>): Bytes
    requires Available(digests, chunks)
  {
    if digests == [] then [] else Whole(digests[..|digests| - 1], chunks) + chunks[digests[|digests| - 1]]
  }

  /** The file's chunks are there and add up to its recorded size and digest. */
  predicate Intact(sha: Bytes -> Digest, e: Entry, chunks: map<Digest, Bytes>)
  {
    e.kind == FileKind ==>
      && Available(e.chunks, chunks)
      && |Whole(e.chunks, chunks)| == e.size && e.digest == Some(sha(Whole(e.chunks, chunks)))
  }

  /** What restoring one entry leaves behind. */
  function Object(e: Entry, chunks: map<Digest, Bytes>): Restored
  {
    match e.kind
    case FileKind => RFile(if Available(e.chunks, chunks) then Whole(e.chunks, chunks) else [], e.mode, e.mtime)
    case DirectoryKind => RDirectory(Some((e.mode, e.mtime)))
    case SymlinkKind => RLink(if e.target.Some? then e.target.value else "", e.mtime)
  }

  function Objects(es: seq<Entry>, chunks: map<Digest, Bytes>): (nodes: seq<Restored>)
    ensures |nodes| == |es| && forall i | 0 <= i < |es| :: nodes[i] == Object(es[i], chunks)
  {
    seq(|es|, i requires 0 <= i < |es| => Object(es[i], chunks))
  }

  /** The same objects with directory metadata still missing from the first `n`. */
  function Skeletons(es: seq<Entry>, chunks: map<Digest, Bytes>, n: nat): (nodes: seq<Restored>)
    requires n <= |es|
    ensures |nodes| == |es|
    ensures forall i | 0 <= i < |es| ::
              nodes[i] == if i < n && es[i].kind == DirectoryKind then RDirectory(None) else Object(es[i], chunks)
  {
    seq(|es|, i requires 0 <= i < |es| =>
      if i < n && es[i].kind == DirectoryKind then RDirectory(None) else Object(es[i], chunks))
  }

  /** Everything an entry needs to be restored. */
  predicate Restorable(sha: Bytes -> Digest, e: Entry, chunks: map<Digest, Bytes>)
  {
    Intact(sha, e, chunks) && (e.kind == SymlinkKind ==> e.target.Some?)
  }

  predicate AllRestorable(sha: Bytes -> Digest, es: seq<Entry>, chunks: map<Digest, Bytes>)
  {
    forall i | 0 <= i < |es| :: Restorable(sha, es[i], chunks)
  }

  method FetchFile(sha: Bytes -> Digest, e: Entry, chunks: map<Digest, Bytes>) returns (r: Result<Bytes, string>)
    requires e.kind == FileKind
    ensures r.Ok? <==> Intact(sha, e, chunks)
    ensures r.Ok? ==> Available(e.chunks, chunks) && r.value == Whole(e.chunks, chunks)
    ensures r.Ok? ==> |r.value| == e.size && e.digest == Some(sha(r.value))
  {
    var whole: Bytes := [];
    for i := 0 to |e.chunks|
      invariant Available(e.chunks[..i], chunks)
      invariant whole == Whole(e.chunks[..i], chunks)
    {
      assert e.chunks[..i + 1][..i] == e.chunks[..i];
      if e.chunks[i] !in chunks {
        return Err("Durable object does not exist.");
      }
      whole := whole + chunks[e.chunks[i]];
    }
    assert e.chunks[..|e.chunks|] == e.chunks;
    if |whole| != e.size || e.digest != Some(sha(whole)) {
      return Err("Restored file content does not match manifest.");
    }
    r := Ok(whole);
  }

  /** Create the missing parents of `p`; an existing parent must be a directory. */
  method MakeParents(tree: Tree, p: Path) returns (r: Result<Tree, string>)
    requires p != []
    ensures r.Ok? <==> forall q | q in tree && StrictPrefix(q, p) :: tree[q].RDirectory?
    ensures r.Ok? ==>
              && (forall q | q in tree :: q in r.value && r.value[q] == tree[q])
              && (forall q | StrictPrefix(q, p) :: q in r.value)
              && (forall q | q in r.value && q !in tree :: StrictPrefix(q, p) && r.value[q] == RDirectory(None))
  {
    var t := tree;
    for k := 1 to |p|
      invariant forall q | q in tree :: q in t && t[q] == tree[q]
      invariant forall q | StrictPrefix(q, p) && |q| < k :: q in t && t[q].RDirectory?
      invariant forall q | q in t && q !in tree :: StrictPrefix(q, p) && |q| < k && t[q] == RDirectory(None)
    {
      var q := p[..k];
      if q in t {
        if !t[q].RDirectory? {
          assert StrictPrefix(q, p);
          return Err("File exists.");
        }
      } else {
        t := t[q := RDirectory(None)];
      }
      assert forall x | StrictPrefix(x, p) && |x| == k :: x == q;
    }
    r := Ok(t);
  }

  /** Put one object at its place; a directory may already be there as a parent. */
  method PlaceObject(tree: Tree, p: Path, node: Restored) returns (r: Result<Tree, string>)
    ensures r.Ok? <==> p !in tree || (node.RDirectory? && tree[p].RDirectory?)
    ensures r.Ok? ==> r.value == if p in tree then tree else tree[p := node]
  {
    if p !in tree {
      return Ok(tree[p := node]);
    }
    if node.RDirectory? && tree[p].RDirectory? {
      return Ok(tree);
    }
    r := Err("File exists.");
  }

  lemma PlacedHolds(before: Tree, parents: Tree, after: Tree, paths: seq<Path>, nodes: seq<Restored>, n: nat)
    requires n < |paths| && n < |nodes| && Holds(before, paths, nodes, n)
    requires forall j | 0 <= j < n :: paths[j] != paths[n]
    requires paths[n] != [] && nodes[n].RDirectory? ==> nodes[n] == RDirectory(None)
    requires paths[n] != []
    requires forall q | q in before :: q in parents && parents[q] == before[q]
    requires forall q | StrictPrefix(q, paths[n]) :: q in parents
    requires forall q | q in parents && q !in before :: StrictPrefix(q, paths[n]) && parents[q] == RDirectory(None)
    requires paths[n] !in parents || (nodes[n].RDirectory? && parents[paths[n]].RDirectory?)
    requires after == if paths[n] in parents then parents else parents[paths[n] := nodes[n]]
    ensures Holds(after, paths, nodes, n + 1)
  {
    assert Stray(paths[n], paths, n);
    forall q | Stray(q, paths, n + 1) && q in after
      ensures after[q] == RDirectory(None) && Above(q, paths, n + 1)
    {
      assert Stray(q, paths, n);
      if q !in before {
        assert StrictPrefix(q, paths[n]);
      }
    }
    forall q | OnTheWay(q, paths[n])
      ensures q in after
    {
      if |q| == |paths[n]| { assert q == paths[n]; } else { assert StrictPrefix(q, paths[n]); }
    }
  }

  predicate DistinctAndProper(paths: seq<Path>)
  {
    && (forall j | 0 <= j < |paths| :: Proper(paths[j]))
    && (forall j, k | 0 <= j < k < |paths| :: paths[j] != paths[k])
  }

  method ReadObject(sha: Bytes -> Digest, e: Entry, chunks: map<Digest, Bytes>) returns (r: Result<Restored, string>)
    ensures r.Ok? <==> Restorable(sha, e, chunks)
    ensures r.Ok? ==> r.value == if e.kind == DirectoryKind then RDirectory(None) else Object(e, chunks)
  {
    match e.kind {
      case DirectoryKind =>
        r := Ok(RDirectory(None));
      case SymlinkKind =>
        if e.target.None? {
          return Err("Symlink target is missing.");
        }
        r := Ok(RLink(e.target.value, e.mtime));
      case FileKind =>
        var content := FetchFile(sha, e, chunks);
        if content.Err? {
          return Err(content.error);
        }
        r := Ok(RFile(content.value, e.mode, e.mtime));
    }
  }

  /** No entry of a shaped manifest finds a file where it needs a directory, or anything where it goes. */
  lemma RoomForNext(tree: Tree, es: seq<Entry>, paths: seq<Path>, chunks: map<Digest, Bytes>, n: nat)
    requires n < |es| && |paths| == |es| && DistinctAndProper(paths)
    requires Holds(tree, paths, Skeletons(es, chunks, |es|), n)
    ensures Shaped(es, paths) ==> forall q | q in tree && StrictPrefix(q, paths[n]) :: tree[q].RDirectory?
    ensures paths[n] in tree ==> tree[paths[n]] == RDirectory(None)
    ensures Shaped(es, paths) && paths[n] in tree ==> es[n].kind == DirectoryKind
  {
    forall q | Shaped(es, paths) && q in tree && StrictPrefix(q, paths[n])
      ensures tree[q].RDirectory?
    {
      if !Stray(q, paths, n) {
        var j :| 0 <= j < n && paths[j] == q;
        assert StrictPrefix(paths[j], paths[n]);
      }
    }
    assert Stray(paths[n], paths, n);
  }

  /** Restore one entry on top of the earlier ones. */
  method RestoreNext(sha: Bytes -> Digest, tree: Tree, es: seq<Entry>, paths: seq<Path>, chunks: map<Digest, Bytes>,
                     n: nat)
      returns (r: Result<Tree, string>)
    requires n < |es| && |paths| == |es| && DistinctAndProper(paths)
    requires Holds(tree, paths, Skeletons(es, chunks, |es|), n)
    ensures r.Ok? ==> Restorable(sha, es[n], chunks) && Holds(r.value, paths, Skeletons(es, chunks, |es|), n + 1)
    ensures Shaped(es, paths) && Restorable(sha, es[n], chunks) ==> r.Ok?
  {
    var p := paths[n];
    RoomForNext(tree, es, paths, chunks, n);
    var parents := MakeParents(tree, p);
    if parents.Err? {
      return Err(parents.error);
    }
    var node := ReadObject(sha, es[n], chunks);
    if node.Err? {
      return Err(node.error);
    }
    var placed := PlaceObject(parents.value, p, node.value);
    if placed.Err? {
      return Err(placed.error);
    }
    PlacedHolds(tree, parents.value, placed.value, paths, Skeletons(es, chunks, |es|), n);
    r := placed;
  }

  /** First pass: every object in manifest order, directories bare. */
  method FirstPass(sha: Bytes -> Digest, es: seq<Entry>, paths: seq<Path>,
                   chunks: map<Digest, Bytes>) returns (r: Result<Tree, string>)
    requires |paths| == |es| && DistinctAndProper(paths)
    ensures r.Ok? ==> Holds(r.value, paths, Skeletons(es, chunks, |es|), |es|)
    ensures r.Ok? ==> AllRestorable(sha, es, chunks)
    ensures Shaped(es, paths) && AllRestorable(sha, es, chunks) ==> r.Ok?
  {
    var tree: Tree := map[];
    for n := 0 to |es|
      invariant Holds(tree, paths, Skeletons(es, chunks, |es|), n)
      invariant forall i | 0 <= i < n :: Restorable(sha, es[i], chunks)
    {
      var next := RestoreNext(sha, tree, es, paths, chunks, n);
      if next.Err? {
        return Err(next.error);
      }
      tree := next.value;
    }
    r := Ok(tree);
  }

  /** Mode and time of the directory at position `n`, once everything below it is in place. */
  function WithMetadata(tree: Tree, p: Path, e: Entry): Tree
  {
    if e.kind == DirectoryKind then tree[p := RDirectory(Some((e.mode, e.mtime)))] else tree
  }

  lemma MetadataHolds(tree: Tree, es: seq<Entry>, paths: seq<Path>, chunks: map<Digest, Bytes>, n: nat)
    requires n < |es| && |paths| == |es| && DistinctAndProper(paths)
    requires Holds(tree, paths, Skeletons(es, chunks, n + 1), |es|)
    ensures Holds(WithMetadata(tree, paths[n], es[n]), paths, Skeletons(es, chunks, n), |es|)
  {
    if es[n].kind != DirectoryKind {
      assert Skeletons(es, chunks, n) == Skeletons(es, chunks, n + 1);
    }
  }

  /**
   `_materialize`: on success the stage holds every entry's object, their bare
   parents and nothing else; a shaped manifest with intact content always succeeds.
   */
  method MaterializeAt(sha: Bytes -> Digest, es: seq<Entry>, paths: seq<Path>, chunks: map<Digest, Bytes>)
      returns (r: Result<Tree, string>)
    requires |paths| == |es| && DistinctAndProper(paths)
    ensures r.Ok? ==> Holds(r.value, paths, Objects(es, chunks), |es|)
    ensures r.Ok? ==> AllRestorable(sha, es, chunks)
    ensures Shaped(es, paths) && AllRestorable(sha, es, chunks) ==> r.Ok?
  {
    r := FirstPass(sha, es, paths, chunks);
    if r.Err? {
      return;
    }
    var tree := r.value;
    for n := |es| downto 0
      invariant Holds(tree, paths, Skeletons(es, chunks, n), |es|)
    {
      MetadataHolds(tree, es, paths, chunks, n);
      tree := WithMetadata(tree, paths[n], es[n]);
    }
    assert Skeletons(es, chunks, 0) == Objects(es, chunks);
    r := Ok(tree);
  }
}
