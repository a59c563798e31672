/**
 `RestoreEngine.restore` on a real store: stage the last two commits, swap in the
 newest that can be, and end with exactly the workspace that was frozen for it.
 */
module Recovery {
  import opened Base
  import opened Paths
  import opened Chunking
  import opened Manifest
  import opened DurableStore
  import opened Materialize
  import opened RoundTrip
  import opened Install

  /** What a top-level entry holds: everything below it, or the state file's fields. */
  datatype Blob = Subtree(tree: Tree) | StateFile(generation: nat, digest: Digest, runtime: string)

  function TopNames(tree: Tree): set<string> { set p | p in tree && |p| == 1 :: p[0] }

  function Under(tree: Tree, name: string): Tree { map p | p in tree && p != [] && p[0] == name :: tree[p] }

  /** The top level of a stage. */
  function LevelOf(tree: Tree): (level: Level<Blob>)
    ensures level.Keys == TopNames(tree)
  {
    map name | name in TopNames(tree) :: Item(AtTop(tree, name), Subtree(Under(tree, name)))
  }

  predicate AtTop(tree: Tree, name: string) { [name] in tree && tree[[name]].RDirectory? }

  /** Everything there is below the top-level entries. */
  function Contents(level: Level<Blob>): Tree
  {
    map name, p | name in level && level[name].body.Subtree? && p in level[name].body.tree && p != [] && p[0] == name ::
      p := level[name].body.tree[p]
  }

  /** Each entry holds paths of its own name only, and is a folder exactly if its own path is a directory. */
  predicate WellPlaced(level: Level<Blob>)
  {
    forall name | name in level ::
      && level[name].body.Subtree? && (forall p | p in level[name].body.tree :: p != [] && p[0] == name)
      && [name] in level[name].body.tree && level[name].folder == level[name].body.tree[[name]].RDirectory?
  }

  /** Everything in the tree is below a top-level entry of it. */
  predicate Topped(tree: Tree)
  {
    forall p | p in tree :: p != [] && [p[0]] in tree
  }

  lemma PathIsKept(tree: Tree, p: Path)
    requires Topped(tree) && p in tree
    ensures p in Contents(LevelOf(tree)) && Contents(LevelOf(tree))[p] == tree[p]
  {
    var top, level := [p[0]], LevelOf(tree);
    assert top in tree && |top| == 1 && top[0] == p[0];
    assert p[0] in level && level[p[0]].body == Subtree(Under(tree, p[0])) && p in Under(tree, p[0]);
  }

  lemma NothingIsAdded(tree: Tree, p: Path)
    requires p in Contents(LevelOf(tree))
    ensures p in tree
  {
  }

  lemma TopIsPlaced(tree: Tree, name: string)
    requires name in LevelOf(tree)
    ensures [name] in tree && LevelOf(tree)[name] == Item(AtTop(tree, name), Subtree(Under(tree, name)))
    ensures [name] in Under(tree, name) && Under(tree, name)[[name]] == tree[[name]]
  {
    var q :| q in tree && |q| == 1 && q[0] == name;
    assert q == [name];
  }

  /** Splitting a tree into its top-level entries loses nothing. */
  lemma LevelHoldsTree(tree: Tree)
    requires Topped(tree)
    ensures Contents(LevelOf(tree)) == tree && WellPlaced(LevelOf(tree))
  {
    AllPathsKept(tree);
    SameMaps(Contents(LevelOf(tree)), tree);
    LevelIsPlaced(tree);
  }

  lemma AllPathsKept(tree: Tree)
    requires Topped(tree)
    ensures forall p | p in tree :: p in Contents(LevelOf(tree)) && Contents(LevelOf(tree))[p] == tree[p]
    ensures forall p | p in Contents(LevelOf(tree)) :: p in tree
  {
    forall p | p in tree
      ensures p in Contents(LevelOf(tree)) && Contents(LevelOf(tree))[p] == tree[p]
    {
      PathIsKept(tree, p);
    }
    forall p | p in Contents(LevelOf(tree))
      ensures p in tree
    {
      NothingIsAdded(tree, p);
    }
  }

  lemma SameMaps<K, V>(a: map<K, V>, b: map<K, V>)
    requires (forall k | k in b :: k in a && a[k] == b[k]) && forall k | k in a :: k in b
    ensures a == b
  {
  }

  lemma LevelIsPlaced(tree: Tree)
    ensures WellPlaced(LevelOf(tree))
  {
    var level := LevelOf(tree);
    forall name | name in level
      ensures level[name].body.Subtree? && forall p | p in level[name].body.tree :: p != [] && p[0] == name
      ensures [name] in level[name].body.tree && level[name].folder == level[name].body.tree[[name]].RDirectory?
    {
      TopIsPlaced(tree, name);
    }
  }

  lemma RestoredIsTopped(tree: Tree, s: Snapshot)
    requires s.Listed() && RestoresExactly(tree, s)
    ensures Topped(tree)
  {
    forall q | q in tree
      ensures q != [] && [q[0]] in tree
    {
      if q in s.nodes && Manifest.Recorded(q, s.nodes[q]) {
        TopIsRestored(tree, s, q);
      } else {
        var p :| p in s.nodes && Manifest.Recorded(p, s.nodes[p]) && StrictPrefix(q, p);
        TopIsRestored(tree, s, p);
      }
    }
  }

  lemma TopIsRestored(tree: Tree, s: Snapshot, p: Path)
    requires s.Listed() && RestoresExactly(tree, s) && p in s.nodes && Manifest.Recorded(p, s.nodes[p])
    ensures [p[0]] in tree
  {
    if |p| == 1 {
      assert p == [p[0]];
    } else {
      assert StrictPrefix([p[0]], p);
    }
  }

  /** The workspace's entries hold exactly what was recorded of the workspace frozen for a generation. */
  ghost predicate ShowsFrozen(level: Level<Blob>, frozen: map<nat, Snapshot>, g: nat)
  {
    g in frozen && Holds(level, frozen[g])
  }

  ghost predicate Holds(level: Level<Blob>, s: Snapshot)
  {
    s.Listed() && WellPlaced(level) && RestoresExactly(Contents(level), s)
  }

  /** The top-level names of what was recorded of a workspace. */
  ghost function Tops(s: Snapshot): set<string>
    requires s.Listed()
  {
    set p | p in s.nodes && Manifest.Recorded(p, s.nodes[p]) :: p[0]
  }

  lemma RestoredTopIsRecorded(tree: Tree, s: Snapshot, q: Path)
    requires s.Listed() && RestoresExactly(tree, s) && q in tree && |q| == 1
    ensures q[0] in Tops(s)
  {
    if !(q in s.nodes && Manifest.Recorded(q, s.nodes[q])) {
      var p :| p in s.nodes && Manifest.Recorded(p, s.nodes[p]) && StrictPrefix(q, p);
      assert p[0] == q[0];
    }
  }

  /** A restored tree has exactly those. */
  lemma RestoredTops(tree: Tree, s: Snapshot)
    requires s.Listed() && RestoresExactly(tree, s)
    ensures TopNames(tree) == Tops(s)
  {
    forall name | name in TopNames(tree)
      ensures name in Tops(s)
    {
      var q :| q in tree && |q| == 1 && q[0] == name;
      RestoredTopIsRecorded(tree, s, q);
    }
    forall name | name in Tops(s)
      ensures name in TopNames(tree)
    {
      var p :| p in s.nodes && Manifest.Recorded(p, s.nodes[p]) && p[0] == name;
      TopIsRestored(tree, s, p);
      assert [p[0]] in tree && |[p[0]]| == 1 && [p[0]][0] == name;
    }
  }

  method Listing(names: set<string>, ghost level: Level<Blob>) returns (listing: seq<string>)
    requires level.Keys == names
    ensures Lists(listing, level) && |listing| == |names|
  {
    listing := [];
    var todo := names;
    while todo != {}
      invariant todo <= names && Names(listing) == names - todo && |listing| + |todo| == |names|
      invariant forall j, k | 0 <= j < k < |listing| :: listing[j] != listing[k]
    {
      var name :| name in todo;
      assert name !in Names(listing);
      NamesSnoc(listing, name);
      todo := todo - {name};
      listing := listing + [name];
    }
  }

  /** Each commit's manifest is a full read of a well-formed workspace whose digests do not collide. */
  ghost predicate Faithful(store: Store, size: nat, frozen: map<nat, Snapshot>)
    reads store
  {
    && size > 0 && store.Valid() && Complete(store.chunks.Keys, store.manifests, store.commits) && HexDigests(store.sha)
    && (forall g | g in store.commits ::
          && g in frozen && WellFormed(frozen[g])
          && CollisionFree(store.sha, PiecesOf(frozen[g], size) + store.chunks.Values)
          && g in store.manifests && store.manifests[g].entries == FullEntries(store.sha, size, frozen[g]))
  }

  /** What happens to one generation's restore: how its fetches fare and how many renames its swap may make. */
  datatype Trial = Trial(arrival: Arrival, luck: nat)

  /** What a restore works against: the commits, the runtime version it writes down, each generation's fortune, and
      the workspaces the commits are full reads of. */
  datatype Backing = Backing(commits: map<nat, Digest>, runtime: string, trial: nat -> Trial,
                             sha: Bytes -> Digest, size: nat, frozen: map<nat, Snapshot>)

  /** The generation fits the limits and all of it arrives. */
  ghost predicate Comes(b: Backing, g: nat)
  {
    && b.size > 0 && g in b.frozen && b.frozen[g].Listed()
    && WithinLimits(FullEntries(b.sha, b.size, b.frozen[g]))
    && Arrives(FullEntries(b.sha, b.size, b.frozen[g]), b.trial(g).arrival)
  }

  function StampOf(b: Backing, g: nat): Blob
    requires g in b.commits
  {
    StateFile(g, b.commits[g], b.runtime)
  }

  /** What staging a committed generation gives. */
  ghost predicate CandidateFor(c: Candidate<Blob>, g: nat, b: Backing)
  {
    && g in b.commits && c.generation == g && c.luck == b.trial(g).luck && c.stamp == StampOf(b, g)
    && (c.staged.Ok? <==> Comes(b, g))
    && (c.staged.Ok? ==>
          && Lists(c.staged.value.names, c.staged.value.level) && |c.staged.value.names| == |Tops(b.frozen[g])|
          && ShowsFrozen(c.staged.value.level, b.frozen, g))
  }

  /** The backing is what the store holds. */
  ghost predicate BackedBy(b: Backing, store: Store)
    reads store
  {
    b.commits == store.commits && b.sha == store.sha && Faithful(store, b.size, b.frozen)
  }

  method Stage(store: Store, g: nat, id: string, at: string, runtime: string, trial: Trial, ghost b: Backing)
      returns (c: Candidate<Blob>)
    requires BackedBy(b, store) && g in store.commits && runtime == b.runtime && trial == b.trial(g)
    ensures CandidateFor(c, g, b)
  {
    var stamp := StateFile(g, store.commits[g], runtime);
    var tree := RestoreCommitted(store, g, id, at, trial.arrival, b.size, b.frozen[g]);
    if tree.Err? {
      return Candidate(g, stamp, Err(tree.error), trial.luck);
    }
    var level := LevelOf(tree.value);
    var listing := Listing(TopNames(tree.value), level);
    RestoredIsTopped(tree.value, b.frozen[g]);
    LevelHoldsTree(tree.value);
    RestoredTops(tree.value, b.frozen[g]);
    c := Candidate(g, stamp, Ok(Staged(listing, level)), trial.luck);
  }

  /** The newest of some generations. */
  method NewestOf(generations: set<nat>) returns (top: nat)
    requires generations != {}
    ensures top in generations && forall g | g in generations :: g <= top
  {
    top :| top in generations;
    var todo := generations - {top};
    while todo != {}
      invariant todo <= generations && top in generations
      invariant forall g | g in generations :: g in todo || g <= top
    {
      var g :| g in todo;
      todo := todo - {g};
      if g > top {
        top := g;
      }
    }
  }

  /** These are the last two of some generations, or all there are, oldest first. */
  predicate LastTwo(generations: set<nat>, last: seq<nat>)
  {
    && |last| <= 2 && (forall i | 0 <= i < |last| :: last[i] in generations)
    && (generations == {} <==> last == [])
    && (forall g | g in generations :: last != [] && g <= last[|last| - 1])
    && (|last| == 2 ==> last[0] < last[1])
    && (forall g | g in generations && g != last[|last| - 1] :: |last| == 2 && g <= last[0])
  }

  method FindLastTwo(generations: set<nat>) returns (last: seq<nat>)
    ensures LastTwo(generations, last)
  {
    if generations == {} {
      return [];
    }
    var top := NewestOf(generations);
    var others := generations - {top};
    if others == {} {
      assert generations == {top};
      return [top];
    }
    var second := NewestOf(others);
    assert forall g | g in generations && g != top :: g in others;
    last := [second, top];
  }

  ghost predicate CandidatesFor(cs: seq<Candidate<Blob>>, last: seq<nat>, b: Backing)
  {
    |cs| == |last| && forall i | 0 <= i < |cs| :: CandidateFor(cs[i], last[i], b)
  }

  /** The generations, staged in order. */
  method StageAll(store: Store, last: seq<nat>, id: string, at: string, runtime: string, trial: nat -> Trial,
                  ghost b: Backing) returns (cs: seq<Candidate<Blob>>)
    requires BackedBy(b, store) && runtime == b.runtime && trial == b.trial
    requires forall i | 0 <= i < |last| :: last[i] in store.commits
    ensures CandidatesFor(cs, last, b)
  {
    cs := [];
    for n := 0 to |last|
      invariant CandidatesFor(cs, last[..n], b)
    {
      var c := Stage(store, last[n], id, at, runtime, trial(last[n]), b);
      cs := cs + [c];
      OneMoreCandidate(cs, last, n, b);
    }
    assert last[..|last|] == last;
  }

  lemma OneMoreCandidate(cs: seq<Candidate<Blob>>, last: seq<nat>, n: nat, b: Backing)
    requires n < |last| && |cs| == n + 1
    requires CandidatesFor(cs[..n], last[..n], b) && CandidateFor(cs[n], last[n], b)
    ensures CandidatesFor(cs, last[..n + 1], b)
  {
    forall i | 0 <= i < n + 1
      ensures CandidateFor(cs[i], last[i], b)
    {
      if i < n { assert cs[..n][i] == cs[i] && last[..n][i] == last[i]; }
    }
  }

  /** What a report says about the workspace it leaves. */
  ghost predicate Truthful(report: Report, b: Backing, was: Level<Blob>, tree: Level<Blob>, state: Option<Blob>)
  {
    match report
    case RestoredTo(g, fallback) =>
      && g in b.commits && Comes(b, g) && ShowsFrozen(tree, b.frozen, g) && state == Some(StampOf(b, g))
      && (fallback <==> exists h :: h in b.commits && h > g)
    case _ => tree == was
  }

  lemma RestoredIsTruthful(cs: seq<Candidate<Blob>>, i: nat, last: seq<nat>, b: Backing, was: Level<Blob>)
    requires LastTwo(b.commits.Keys, last) && CandidatesFor(cs, last, b) && i < |cs| && cs[i].staged.Ok?
    ensures Truthful(RestoredTo(cs[i].generation, i < |cs| - 1), b, was, cs[i].staged.value.level, Some(cs[i].stamp))
  {
    NotTheNewest(b.commits.Keys, last, i);
    CandidateIsTruthful(cs[i], last[i], b, i < |cs| - 1, was);
  }

  lemma CandidateIsTruthful(c: Candidate<Blob>, g: nat, b: Backing, fallback: bool, was: Level<Blob>)
    requires CandidateFor(c, g, b) && c.staged.Ok?
    requires fallback <==> exists h :: h in b.commits && h > g
    ensures Truthful(RestoredTo(c.generation, fallback), b, was, c.staged.value.level, Some(c.stamp))
  {
  }

  lemma NotTheNewest(generations: set<nat>, last: seq<nat>, i: nat)
    requires LastTwo(generations, last) && i < |last|
    ensures i < |last| - 1 <==> exists h :: h in generations && h > last[i]
  {
    if i < |last| - 1 {
      assert last[1] in generations && last[0] in generations;
    }
  }

  // ------------------------------------------------------ which generation it is

  predicate Newest(b: Backing, g: nat) { g in b.commits && forall h | h in b.commits :: h <= g }

  ghost predicate SecondNewest(b: Backing, g: nat)
  {
    g in b.commits && exists top :: Newest(b, top) && top != g && forall h | h in b.commits && h != top :: h <= g
  }

  /** The state file is the newest generation's, and no condition forces a restore. */
  predicate Current(b: Backing, top: nat, forced: bool, state: Option<Blob>)
    requires top in b.commits
  {
    !forced && state == Some(StampOf(b, top))
  }

  /** A workspace is current only under the newest generation, its digest and this very runtime version. */
  lemma CurrentIff(b: Backing, top: nat, forced: bool, generation: nat, digest: Digest, runtime: string)
    requires top in b.commits
    ensures Current(b, top, forced, Some(StateFile(generation, digest, runtime)))
            <==> !forced && generation == top && digest == b.commits[top] && runtime == b.runtime
    ensures !Current(b, top, forced, None)
  {
  }

  /** The generation comes, and its swap goes through. */
  ghost predicate Lands(b: Backing, g: nat, names: seq<string>, tree: Level<Blob>, state: Option<Blob>)
  {
    Comes(b, g) && Succeeds(names, |Tops(b.frozen[g])|, tree, state, b.trial(g).luck)
  }

  /** The state file after this generation's attempt has failed. */
  ghost function LeftBy(b: Backing, g: nat, names: seq<string>, tree: Level<Blob>, state: Option<Blob>): Option<Blob>
  {
    if Comes(b, g) && LosesState(names, |Tops(b.frozen[g])|, tree, state, b.trial(g).luck) then None else state
  }

  lemma CandidateLands(g: nat, c: Candidate<Blob>, b: Backing, names: seq<string>, tree: Level<Blob>,
                       state: Option<Blob>)
    requires CandidateFor(c, g, b)
    ensures Swaps(c, names, tree, state) <==> Lands(b, g, names, tree, state)
    ensures StateAfterFailing(c, names, tree, state) == LeftBy(b, g, names, tree, state)
  {
  }

  lemma NewestIsLast(b: Backing, g: nat, last: seq<nat>)
    requires LastTwo(b.commits.Keys, last)
    ensures Newest(b, g) <==> last != [] && last[|last| - 1] == g
    ensures SecondNewest(b, g) <==> |last| == 2 && last[0] == g
  {
    if last != [] {
      assert Newest(b, last[|last| - 1]);
    }
  }

  /**
   What is reported, and what becomes of the state file, of a workspace with these commits: kept
   if it is current; otherwise the newest generation if it lands, else the second newest if that
   lands, else nothing.
   */
  ghost predicate Decided(report: Report, b: Backing, names: seq<string>, existing: bool, forced: bool,
                          tree: Level<Blob>, state: Option<Blob>, state': Option<Blob>)
  {
    && (b.commits == map[] ==> report == (if existing then Failed else Initialized) && state' == state)
    && (forall top | Newest(b, top) ::
          if Current(b, top, forced, state) then report == Local(top) && state' == state
          else if Lands(b, top, names, tree, state) then report == RestoredTo(top, false)
          else SecondDecided(report, b, names, tree, LeftBy(b, top, names, tree, state), state'))
  }

  ghost predicate SecondDecided(report: Report, b: Backing, names: seq<string>, tree: Level<Blob>,
                                state: Option<Blob>, state': Option<Blob>)
  {
    && ((forall g :: !SecondNewest(b, g)) ==> report == Failed && state' == state)
    && (forall g | SecondNewest(b, g) ::
          if Lands(b, g, names, tree, state) then report == RestoredTo(g, true)
          else report == Failed && state' == LeftBy(b, g, names, tree, state))
  }

  /**
   The restore: a workspace that is current is kept as it is. Otherwise, on success the
   workspace is exactly what was recorded of the workspace frozen for the generation the report
   and the state file name, and on failure the tree is as before. A generation that is lost on
   the way or cannot be swapped in makes way for the one before it.
   */
  method RestoreWorkspace(store: Store, ws: Workspace<Blob>, names: seq<string>, id: string, at: string,
                          runtime: string, existing: bool, forced: bool, trial: nat -> Trial, ghost b: Backing)
      returns (report: Report)
    requires BackedBy(b, store) && runtime == b.runtime && trial == b.trial && Lists(names, ws.tree)
    modifies ws
    ensures Truthful(report, b, old(ws.tree), ws.tree, ws.state)
    ensures Decided(report, b, names, existing, forced, old(ws.tree), old(ws.state), ws.state)
  {
    var last := FindLastTwo(store.commits.Keys);
    var cs := StageAll(store, last, id, at, runtime, trial, b);
    var latest := if cs == [] then None else Some(cs[|cs| - 1].stamp);
    report := Choose(ws, names, cs, existing, forced, latest, last, b);
  }

  lemma SelectedIsDecided(cs: seq<Candidate<Blob>>, existing: bool, forced: bool, current: Blob -> bool,
                          names: seq<string>, last: seq<nat>, b: Backing, tree: Level<Blob>, state: Option<Blob>,
                          report: Report, state': Option<Blob>)
    requires LastTwo(b.commits.Keys, last) && CandidatesFor(cs, last, b)
    requires cs != [] ==> forall x :: current(x) <==> x == cs[|cs| - 1].stamp
    requires report == Selected(cs, existing, forced, current, names, tree, state)
    requires report.Failed? ==> state' == StateLeft(cs, names, tree, state, 0)
    requires report.Local? || report.Initialized? ==> state' == state
    ensures Decided(report, b, names, existing, forced, tree, state, state')
  {
    forall top | Newest(b, top)
      ensures if Current(b, top, forced, state) then report == Local(top) && state' == state
              else if Lands(b, top, names, tree, state) then report == RestoredTo(top, false)
              else SecondDecided(report, b, names, tree, LeftBy(b, top, names, tree, state), state')
    {
      NewestIsLast(b, top, last);
      assert CandidateFor(cs[|cs| - 1], top, b);
      CandidateLands(top, cs[|cs| - 1], b, names, tree, state);
      CurrentIsKept(cs, existing, forced, current, names, tree, state);
      if !Current(b, top, forced, state) && !Lands(b, top, names, tree, state) {
        SecondIsDecided(cs, names, last, b, tree, LeftBy(b, top, names, tree, state), report, state');
      }
    }
  }

  lemma SecondIsDecided(cs: seq<Candidate<Blob>>, names: seq<string>, last: seq<nat>, b: Backing, tree: Level<Blob>,
                        state: Option<Blob>, report: Report, state': Option<Blob>)
    requires LastTwo(b.commits.Keys, last) && CandidatesFor(cs, last, b)
    requires report == Attempts(cs, names, tree, state, 1)
    requires report.Failed? ==> state' == StateLeft(cs, names, tree, state, 1)
    ensures SecondDecided(report, b, names, tree, state, state')
  {
    if |last| == 2 {
      TwoAreDecided(cs, names, last, b, tree, state, report, state');
    } else {
      OneIsDecided(cs, last, b);
    }
  }

  lemma OneIsDecided(cs: seq<Candidate<Blob>>, last: seq<nat>, b: Backing)
    requires LastTwo(b.commits.Keys, last) && CandidatesFor(cs, last, b) && |last| < 2
    ensures forall g :: !SecondNewest(b, g)
  {
    forall g
      ensures !SecondNewest(b, g)
    {
      NewestIsLast(b, g, last);
    }
  }

  lemma TwoAreDecided(cs: seq<Candidate<Blob>>, names: seq<string>, last: seq<nat>, b: Backing, tree: Level<Blob>,
                      state: Option<Blob>, report: Report, state': Option<Blob>)
    requires LastTwo(b.commits.Keys, last) && CandidatesFor(cs, last, b) && |last| == 2
    requires report == Attempts(cs, names, tree, state, 1)
    requires report.Failed? ==> state' == StateLeft(cs, names, tree, state, 1)
    ensures SecondDecided(report, b, names, tree, state, state')
  {
    var g := last[0];
    assert CandidateFor(cs[0], g, b);
    CandidateLands(g, cs[0], b, names, tree, state);
    LastAttempt(cs, names, tree, state);
    OnlySecond(b, last);
    SecondIs(report, b, g, names, tree, state, state');
  }

  lemma OnlySecond(b: Backing, last: seq<nat>)
    requires LastTwo(b.commits.Keys, last) && |last| == 2
    ensures forall h :: SecondNewest(b, h) <==> h == last[0]
  {
    forall h
      ensures SecondNewest(b, h) <==> h == last[0]
    {
      NewestIsLast(b, h, last);
    }
  }

  lemma SecondIs(report: Report, b: Backing, g: nat, names: seq<string>, tree: Level<Blob>, state: Option<Blob>,
                 state': Option<Blob>)
    requires forall h :: SecondNewest(b, h) <==> h == g
    requires report == if Lands(b, g, names, tree, state) then RestoredTo(g, true) else Failed
    requires report.Failed? ==> state' == LeftBy(b, g, names, tree, state)
    ensures SecondDecided(report, b, names, tree, state, state')
  {
    assert SecondNewest(b, g);
  }

  lemma LastAttempt(cs: seq<Candidate<Blob>>, names: seq<string>, tree: Level<Blob>, state: Option<Blob>)
    requires |cs| == 2
    ensures Attempts(cs, names, tree, state, 1)
            == if Swaps(cs[0], names, tree, state) then RestoredTo(cs[0].generation, true) else Failed
    ensures StateLeft(cs, names, tree, state, 1) == StateAfterFailing(cs[0], names, tree, state)
  {
    var left := StateAfterFailing(cs[0], names, tree, state);
    assert Attempts(cs, names, tree, left, 2) == Failed && StateLeft(cs, names, tree, left, 2) == left;
  }

  method Choose(ws: Workspace<Blob>, names: seq<string>, cs: seq<Candidate<Blob>>, existing: bool, forced: bool,
                latest: Option<Blob>, ghost last: seq<nat>, ghost b: Backing) returns (report: Report)
    requires LastTwo(b.commits.Keys, last) && CandidatesFor(cs, last, b)
    requires Lists(names, ws.tree) && latest == if cs == [] then None else Some(cs[|cs| - 1].stamp)
    modifies ws
    ensures Truthful(report, b, old(ws.tree), ws.tree, ws.state)
    ensures Decided(report, b, names, existing, forced, old(ws.tree), old(ws.state), ws.state)
  {
    forall i | 0 <= i < |cs| && cs[i].staged.Ok?
      ensures Lists(cs[i].staged.value.names, cs[i].staged.value.level)
    {
      assert CandidateFor(cs[i], last[i], b);
    }
    var current := x => Some(x) == latest;
    report := ws.Restore(cs, existing, forced, current, names);
    SelectedIsDecided(cs, existing, forced, current, names, last, b, old(ws.tree), old(ws.state), report, ws.state);
    if report.RestoredTo? {
      ghost var i :| && |cs| - 2 <= i < |cs| && 0 <= i && cs[i].generation == report.generation
                     && cs[i].staged.Ok? && ws.tree == cs[i].staged.value.level
                     && ws.state == Some(cs[i].stamp) && report.fallback == (i < |cs| - 1);
      RestoredIsTruthful(cs, i, last, b, old(ws.tree));
    }
  }
}
