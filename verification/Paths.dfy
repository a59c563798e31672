/**
 Workspace paths, the order manifests are sorted by, the persistence policy and
 the symlink rule that checkpoint and restore share.
 */
module Paths {

  /** A relative path as its segments, the way `PurePosixPath.parts` gives it. */
  type Path = seq<string>

  predicate Segment(part: string)
  {
    part != "" && part != "." && '/' !in part
  }

  predicate Proper(path: Path)
  {
    path != [] && forall i | 0 <= i < |path| :: Segment(path[i])
  }

  function Join(path: Path): string
  {
    if |path| == 0 then ""
    else if |path| == 1 then path[0]
    else path[0] + "/" + Join(path[1..])
  }

  /** The position of the first slash, or the length. */
  function Slash(text: string): (i: nat)
    ensures i <= |text| && '/' !in text[..i]
    ensures i < |text| ==> text[i] == '/'
  {
    if text == "" then 0
    else if text[0] == '/' then 0
    else
      var i := 1 + Slash(text[1..]);
      assert text[..i] == [text[0]] + text[1..][..i - 1];
      i
  }

  function Split(text: string): (path: Path)
    ensures path != [] && forall i | 0 <= i < |path| :: '/' !in path[i]
    decreases |text|
  {
    var i := Slash(text);
    if i == |text| then [text] else [text[..i]] + Split(text[i + 1..])
  }

  lemma SlashAfter(part: string, rest: string)
    requires '/' !in part
    ensures Slash(part + "/" + rest) == |part|
  {
    var text := part + "/" + rest;
    var i := Slash(text);
    assert forall k | 0 <= k < |part| :: text[k] == part[k];
    assert text[|part|] == '/';
    assert forall k | 0 <= k < i :: text[..i][k] == text[k];
  }

  lemma SlashFree(part: string)
    requires '/' !in part
    ensures Slash(part) == |part|
  {
  }

  /** Printing a path and parsing it back is the identity. */
  lemma {:induction false} SplitJoin(path: Path)
    requires Proper(path)
    ensures Split(Join(path)) == path
    decreases |path|
  {
    if |path| == 1 {
      SlashFree(path[0]);
    } else {
      SplitJoin(path[1..]);
      SplitFirst(path[0], Join(path[1..]));
      assert path == [path[0]] + path[1..];
    }
  }

  lemma SplitFirst(part: string, rest: string)
    requires '/' !in part
    ensures Split(part + "/" + rest) == [part] + Split(rest)
  {
    SlashAfter(part, rest);
    var text := part + "/" + rest;
    assert text[..|part|] == part && text[|part| + 1..] == rest;
  }

  lemma JoinCons(head: string, rest: Path)
    requires rest != []
    ensures Join([head] + rest) == head + "/" + Join(rest)
  {
    assert ([head] + rest)[1..] == rest;
  }

  lemma AroundSlash(text: string, i: nat)
    requires i < |text| && text[i] == '/'
    ensures text[..i] + "/" + text[i + 1..] == text
  {
  }

  /** Parsing a path and printing it back is the identity too. */
  lemma {:induction false} JoinSplit(text: string)
    ensures Join(Split(text)) == text
    decreases |text|
  {
    var i := Slash(text);
    if i < |text| {
      var rest := text[i + 1..];
      JoinSplit(rest);
      JoinCons(text[..i], Split(rest));
      AroundSlash(text, i);
    }
  }

  lemma JoinInjective(a: Path, b: Path)
    requires Proper(a) && Proper(b) && Join(a) == Join(b)
    ensures a == b
  {
    SplitJoin(a);
    SplitJoin(b);
  }

  // ------------------------------------------------------- string order

  /** Code-point order of strings, the order Python sorts paths by. */
  predicate Less(a: string, b: string)
    decreases |a|
  {
    b != "" && (a == "" || a[0] < b[0] || (a[0] == b[0] && Less(a[1..], b[1..])))
  }

  /** One string comes before another exactly if it is cut short, or smaller where they first differ. */
  lemma {:induction false} LessIsLexicographic(a: string, b: string)
    ensures Less(a, b) <==> (a != b && a <= b) || SmallerWhereTheyDiffer(a, b)
    decreases |a|
  {
    if a != "" && b != "" && a[0] == b[0] {
      var x, y := a[1..], b[1..];
      LessIsLexicographic(x, y);
      assert a == [a[0]] + x && b == [a[0]] + y;
      SameFirstDiffersLater(a[0], x, y, a, b);
    } else if a != "" && b != "" {
      assert DifferAt(a, b, 0);
      assert forall k: nat | DifferAt(a, b, k) :: k == 0;
    }
  }

  predicate SmallerWhereTheyDiffer(a: string, b: string)
  {
    exists k: nat | k < |a| && k < |b| :: DifferAt(a, b, k) && a[k] < b[k]
  }

  lemma SameFirstDiffersLater(c: char, x: string, y: string, a: string, b: string)
    requires a == [c] + x && b == [c] + y
    ensures SmallerWhereTheyDiffer(a, b) <==> SmallerWhereTheyDiffer(x, y)
    ensures a == b <==> x == y
    ensures a <= b <==> x <= y
  {
    assert a[1..] == x && b[1..] == y;
    if k: nat :| k < |x| && k < |y| && DifferAt(x, y, k) && x[k] < y[k] {
      DiffersDeeper(c, x, y, a, b, k);
    }
    if k: nat :| k < |a| && k < |b| && DifferAt(a, b, k) && a[k] < b[k] {
      DiffersShallower(c, x, y, a, b, k);
    }
  }

  lemma DiffersDeeper(c: char, x: string, y: string, a: string, b: string, k: nat)
    requires a == [c] + x && b == [c] + y && DifferAt(x, y, k)
    ensures DifferAt(a, b, k + 1) && a[k + 1] == x[k] && b[k + 1] == y[k]
  {
  }

  lemma DiffersShallower(c: char, x: string, y: string, a: string, b: string, k: nat)
    requires a == [c] + x && b == [c] + y && DifferAt(a, b, k)
    ensures k > 0 && DifferAt(x, y, k - 1) && a[k] == x[k - 1] && b[k] == y[k - 1]
  {
    assert forall i: nat | i < k - 1 :: x[i] == a[i + 1] && y[i] == b[i + 1];
  }

  /** The strings agree up to `k` and differ there. */
  predicate DifferAt(a: string, b: string, k: nat)
  {
    k < |a| && k < |b| && a[k] != b[k] && forall i | 0 <= i < k :: a[i] == b[i]
  }

  lemma {:induction false} LessTransitive(a: string, b: string, c: string)
    requires Less(a, b) && Less(b, c)
    ensures Less(a, c)
    decreases |a|
  {
    if a != "" && a[0] == b[0] && b[0] == c[0] {
      LessTransitive(a[1..], b[1..], c[1..]);
    }
  }

  lemma {:induction false} LessIrreflexive(a: string)
    ensures !Less(a, a)
    decreases |a|
  {
    if a != "" { LessIrreflexive(a[1..]); }
  }

  lemma {:induction false} LessTotal(a: string, b: string)
    ensures a == b || Less(a, b) || Less(b, a)
    decreases |a|
  {
    if a != "" && b != "" && a[0] == b[0] {
      LessTotal(a[1..], b[1..]);
      if a[1..] == b[1..] {
        assert a == [a[0]] + a[1..] && b == [b[0]] + b[1..];
      }
    }
  }

  // -------------------------------------------------------------- policy

  const ROOTS: seq<Path> := [
    ["home", ".kiro"], ["home", ".config"], ["home", ".local", "share", "kiro-cli"],
    ["artifacts"], ["knowledge"], ["memory"], ["projects"], ["user"] ]

  const EXCLUDED: seq<Path> := [
    [".agentcore"], [".aws"], [".cache"], [".mypy_cache"], [".pytest_cache"], [".ruff_cache"],
    [".ssh"], ["__pycache__"], ["node_modules"], ["home", ".kiro", "crew", "models"] ]

  const EXCLUDED_NAMES: set<string> := {".env", ".env.local", "adapter.run", "kirocrew.pid", "runtime.pid"}

  const EXCLUDED_SUFFIXES: seq<string> := [".log", ".pid", ".sock", ".tmp", "~"]

  predicate Under(root: Path, path: Path) { root <= path }

  /** The segments of `run` occur in `path` one after another. */
  predicate Contains(path: Path, run: Path)
  {
    exists i | 0 <= i <= |path| :: run <= path[i..]
  }

  predicate EndsWith(name: string, suffix: string)
  {
    |suffix| <= |name| && name[|name| - |suffix|..] == suffix
  }

  /** `PersistencePolicy.covers`. */
  predicate Covers(path: Path)
  {
    ".." !in path && exists k | 0 <= k < |ROOTS| :: Under(ROOTS[k], path)
  }

  /** `PersistencePolicy.includes`. */
  predicate Includes(path: Path)
    requires path != []
  {
    var name := path[|path| - 1];
    && Covers(path)
    && (forall k | 0 <= k < |EXCLUDED| :: !Contains(path, EXCLUDED[k]))
    && name !in EXCLUDED_NAMES
    && (forall k | 0 <= k < |EXCLUDED_SUFFIXES| :: !EndsWith(name, EXCLUDED_SUFFIXES[k]))
  }

  /** A run of segments is contained in a path exactly if it stands somewhere in it. */
  lemma ContainsIsInfix(path: Path, run: Path)
    ensures Contains(path, run) <==> exists before: Path, after: Path :: path == before + run + after
  {
    if i :| 0 <= i <= |path| && run <= path[i..] {
      assert path == path[..i] + run + path[i + |run|..];
    }
    if before: Path, after: Path :| path == before + run + after {
      assert path[|before|..] == run + after;
    }
  }

  /** Nothing below, at or above an excluded run of segments is ever included, wherever the run stands. */
  lemma ExcludedAnywhere(path: Path, before: Path, run: Path, after: Path)
    requires path != [] && run in EXCLUDED && path == before + run + after
    ensures !Includes(path)
  {
    ContainsIsInfix(path, run);
    var k :| 0 <= k < |EXCLUDED| && EXCLUDED[k] == run;
    assert Contains(path, EXCLUDED[k]);
  }

  /** Nor is a path outside the durable roots, with a "..", of an excluded name or with an excluded ending. */
  lemma IncludedIsDurable(path: Path)
    requires path != [] && Includes(path)
    ensures ".." !in path && path[|path| - 1] !in EXCLUDED_NAMES
    ensures exists k, below: Path :: 0 <= k < |ROOTS| && path == ROOTS[k] + below
    ensures forall stem: string, suffix | suffix in EXCLUDED_SUFFIXES :: path[|path| - 1] != stem + suffix
  {
    var k :| 0 <= k < |ROOTS| && Under(ROOTS[k], path);
    assert path == ROOTS[k] + path[|ROOTS[k]|..];
    forall stem: string, suffix | suffix in EXCLUDED_SUFFIXES
      ensures path[|path| - 1] != stem + suffix
    {
      var j :| 0 <= j < |EXCLUDED_SUFFIXES| && EXCLUDED_SUFFIXES[j] == suffix;
      assert !EndsWith(path[|path| - 1], EXCLUDED_SUFFIXES[j]);
      assert (stem + suffix)[|stem|..] == suffix;
    }
  }

  // ------------------------------------------------------------- symlinks

  /** The segments of a link target: empty and "." segments vanish, ".." stays. */
  function TargetParts(segments: seq<string>): (parts: Path)
    ensures forall p | p in parts :: p != "" && p != "."
  {
    if segments == [] then []
    else if segments[0] == "" || segments[0] == "." then TargetParts(segments[1..])
    else [segments[0]] + TargetParts(segments[1..])
  }

  /** A target that starts with a slash never stays inside, wherever the link is. */
  lemma AbsoluteNeverInside(path: Path, rest: string)
    requires path != []
    ensures !StaysInside(path, "/" + rest)
  {
  }

  /** How many of the first `n` segments go up. */
  function Ups(segments: seq<string>, n: nat): nat
    requires n <= |segments|
  {
    if n == 0 then 0 else Ups(segments, n - 1) + if segments[n - 1] == ".." then 1 else 0
  }

  /** How many of the first `n` segments go down: neither up, nor empty, nor ".". */
  function Downs(segments: seq<string>, n: nat): nat
    requires n <= |segments|
  {
    if n == 0 then 0
    else
      var last := segments[n - 1];
      Downs(segments, n - 1) + if last != ".." && last != "" && last != "." then 1 else 0
  }

  /** From a directory this deep, no prefix of the segments climbs above the root. */
  predicate NeverAbove(depth: int, segments: seq<string>)
  {
    forall n | 0 <= n <= |segments| :: Within(depth, segments, n)
  }

  predicate Within(depth: int, segments: seq<string>, n: nat)
    requires n <= |segments|
  {
    Ups(segments, n) <= depth + Downs(segments, n)
  }

  lemma {:induction false} CountsCons(first: string, rest: seq<string>, n: nat)
    requires n <= |rest|
    ensures Ups([first] + rest, n + 1) == Ups(rest, n) + if first == ".." then 1 else 0
    ensures Downs([first] + rest, n + 1)
            == Downs(rest, n) + if first != ".." && first != "" && first != "." then 1 else 0
    decreases n
  {
    var all := [first] + rest;
    if n == 0 {
      assert Ups(all, 0) == 0 && Downs(all, 0) == 0 && all[0] == first;
    } else {
      CountsCons(first, rest, n - 1);
      assert all[n] == rest[n - 1];
    }
  }

  /** What one segment does to the depth. */
  function Change(segment: string): int
  {
    if segment == ".." then -1 else if segment == "" || segment == "." then 0 else 1
  }

  lemma NeverAboveCons(depth: int, first: string, rest: seq<string>)
    requires depth >= 0
    ensures NeverAbove(depth, [first] + rest) <==> NeverAbove(depth + Change(first), rest)
  {
    var all, below := [first] + rest, depth + Change(first);
    forall m | 0 < m <= |all|
      ensures Within(depth, all, m) <==> Within(below, rest, m - 1)
    {
      CountsCons(first, rest, m - 1);
    }
    if NeverAbove(depth, all) {
      forall n | 0 <= n <= |rest|
        ensures Within(below, rest, n)
      {
        assert Within(depth, all, n + 1);
      }
    }
  }

  lemma {:induction false} WalkCounts(from: Path, segments: seq<string>)
    ensures Walk(from, TargetParts(segments)).0 <==> NeverAbove(|from|, segments)
    decreases |segments|
  {
    if segments == [] {
      assert Within(|from|, segments, 0);
    } else {
      var first, rest := segments[0], segments[1..];
      assert segments == [first] + rest;
      NeverAboveCons(|from|, first, rest);
      if first == "" || first == "." {
        WalkCounts(from, rest);
      } else {
        assert TargetParts(segments)[1..] == TargetParts(rest);
        if first != ".." {
          WalkCounts(from + [first], rest);
        } else if from != [] {
          WalkCounts(from[..|from| - 1], rest);
        } else {
          assert !Within(-1, rest, 0);
        }
      }
    }
  }

  /** A relative target stays inside exactly if no prefix of its segments goes up more often than it may. */
  lemma StaysInsideCounts(path: Path, target: string)
    requires path != []
    ensures StaysInside(path, target) <==> !Absolute(target) && NeverAbove(|path| - 1, Split(target))
  {
    WalkCounts(path[..|path| - 1], Split(target));
  }

  /** Dropping empty segments and "." drops nothing else and reorders nothing. */
  lemma {:induction false} TargetPartsAppend(a: seq<string>, b: seq<string>)
    ensures TargetParts(a + b) == TargetParts(a) + TargetParts(b)
    decreases |a|
  {
    if a == [] {
      assert a + b == b;
    } else {
      assert (a + b)[1..] == a[1..] + b;
      TargetPartsAppend(a[1..], b);
    }
  }

  lemma TargetPartsOne(x: string)
    ensures TargetParts([x]) == if x == "" || x == "." then [] else [x]
  {
    assert TargetParts([x][1..]) == [];
  }

  lemma {:induction false} TargetPartsMembers(segments: seq<string>, x: string)
    ensures x in TargetParts(segments) <==> x in segments && x != "" && x != "."
    decreases |segments|
  {
    if segments != [] {
      assert segments == [segments[0]] + segments[1..];
      TargetPartsMembers(segments[1..], x);
    }
  }

  predicate Absolute(target: string) { target != "" && target[0] == '/' }

  /** Follow `parts` from directory `from`; None once a ".." leaves the workspace root. */
  function Walk(from: Path, parts: Path): (end: (bool, Path))
    decreases |parts|
  {
    if parts == [] then (true, from)
    else if parts[0] != ".." then Walk(from + [parts[0]], parts[1..])
    else if from == [] then (false, [])
    else Walk(from[..|from| - 1], parts[1..])
  }

  /** The link at `path` never climbs above the workspace root while it is followed. */
  predicate StaysInside(path: Path, target: string)
    requires path != []
  {
    !Absolute(target) && Walk(path[..|path| - 1], TargetParts(Split(target))).0
  }

  /** `safe_symlink_target`: the depth counter decides exactly whether the link stays inside. */
  method SafeSymlinkTarget(path: Path, target: string) returns (safe: bool)
    requires path != []
    ensures safe == StaysInside(path, target)
  {
    if Absolute(target) {
      return false;
    }
    var parts := TargetParts(Split(target));
    var depth := |path| - 1;
    ghost var here := path[..|path| - 1];
    for i := 0 to |parts|
      invariant depth == |here|
      invariant Walk(path[..|path| - 1], parts).0 == Walk(here, parts[i..]).0
    {
      assert parts[i..][1..] == parts[i + 1..];
      if parts[i] == ".." {
        depth := depth - 1;
        if depth < 0 {
          return false;
        }
        here := here[..|here| - 1];
      } else {
        depth := depth + 1;
        here := here + [parts[i]];
      }
    }
    safe := true;
  }
}
