/**
 `_install`: swap the workspace for the staged tree entry by entry, undo the swap
 if a move fails, and never show the state file beside a half-swapped tree.
 `restore`: the newest of the last two generations that can be restored wins.
 */
module Install {
  import opened Base

  /** A top-level workspace entry: a directory with all below it, or a single file. */
  datatype Item<T> = Item(folder: bool, body: T)

  type Level<T> = map<string, Item<T>>

  /** A directory listing names every entry once. */
  ghost predicate Lists<T>(names: seq<string>, level: Level<T>)
  {
    && Names(names) == level.Keys
    && (forall j, k | 0 <= j < k < |names| :: names[j] != names[k])
  }

  const STATE_FILE := "persistence.json"

  /** What somebody looking at the workspace sees. */
  datatype Shot<T> = Shot(tree: Level<T>, state: Option<T>)

  /** The state file vouches for the tree beside it. */
  ghost predicate Vouched<T>(shot: Shot<T>, was: Shot<T>, next: Shot<T>)
  {
    shot.state.Some? ==> shot == was || shot == next
  }

  ghost function Names(names: seq<string>): set<string> { set name | name in names }

  lemma NamesSnoc(names: seq<string>, name: string)
    ensures Names(names + [name]) == Names(names) + {name}
  {
  }

  lemma NamesFrom(names: seq<string>, k: nat)
    requires k < |names| && forall i, j | 0 <= i < j < |names| :: names[i] != names[j]
    ensures Names(names[k..]) == Names(names[k + 1..]) + {names[k]} && names[k] !in Names(names[k + 1..])
    ensures Names(names[..k + 1]) == Names(names[..k]) + {names[k]} && names[k] !in Names(names[..k])
  {
    assert names[k..] == [names[k]] + names[k + 1..];
    assert names[..k + 1] == names[..k] + [names[k]];
  }

  // ------------------------------------------- how far a swap gets, from its inputs

  /** A directory named like the state file cannot be renamed over the state file kept in the backup. */
  predicate Blocked<T>(tree: Level<T>, guarded: bool)
  {
    guarded && STATE_FILE in tree && tree[STATE_FILE].folder
  }

  /** None of the first `n` entries is a directory that cannot be moved. */
  predicate Clear(names: seq<string>, blocked: bool, n: nat)
    requires n <= |names|
  {
    blocked ==> forall i | 0 <= i < n :: names[i] != STATE_FILE
  }

  lemma ClearOneMore(names: seq<string>, blocked: bool, n: nat)
    requires n < |names| && Clear(names, blocked, n) && !(blocked && names[n] == STATE_FILE)
    ensures Clear(names, blocked, n + 1)
  {
  }

  /** With `luck` renames to come, `n` of the listed entries reach the backup. */
  predicate StopsAt(names: seq<string>, blocked: bool, luck: nat, n: nat)
  {
    && n <= |names| && n <= luck
    && Clear(names, blocked, n)
    && (n < |names| ==> n == luck || (blocked && names[n] == STATE_FILE))
  }

  /** The whole swap goes through. */
  predicate Succeeds<T>(names: seq<string>, arriving: nat, tree: Level<T>, state: Option<T>, luck: nat)
  {
    luck > (if state.Some? then 1 else 0) + |names| + arriving && !Blocked(tree, state.Some?)
  }

  /** The swap fails after a user's file called like the state file replaced it in the backup. */
  predicate LosesState<T>(names: seq<string>, arriving: nat, tree: Level<T>, state: Option<T>, luck: nat)
  {
    && state.Some? && luck <= 1 + |names| + arriving && !Blocked(tree, true)
    && exists k :: 0 <= k < |names| && k + 1 < luck && names[k] == STATE_FILE
  }

  /** The backup holds what was moved, over what it held before. */
  ghost predicate Holding<T>(backup: Level<T>, before: Level<T>, from: Level<T>, gone: set<string>)
  {
    && backup.Keys == before.Keys + gone && gone <= from.Keys
    && (forall name | name in backup :: backup[name] == if name in gone then from[name] else before[name])
  }

  lemma HoldingOneMore<T>(backup: Level<T>, before: Level<T>, from: Level<T>, gone: set<string>, name: string)
    requires Holding(backup, before, from, gone) && name in from
    ensures Holding(backup[name := from[name]], before, from, gone + {name})
  {
  }

  lemma MinusOneMore<T>(level: Level<T>, gone: set<string>, name: string)
    ensures level - gone - {name} == level - (gone + {name})
  {
  }

  lemma PlusOneBack<T>(level: Level<T>, gone: set<string>, name: string)
    requires name in level && name !in gone
    ensures (level - (gone + {name}) - {name})[name := level[name]] == level - gone
  {
  }

  /** What the stopping point says about the outcome. */
  lemma HowFar<T>(names: seq<string>, arriving: nat, tree: Level<T>, state: Option<T>, luck: nat, n: nat)
    requires Lists(names, tree) && StopsAt(names, Blocked(tree, state.Some?), luck, n)
    ensures (n == |names| && luck > |names| + arriving) == Succeeds(names, arriving, tree, state, luck + |Aside(state)|)
    ensures !Succeeds(names, arriving, tree, state, luck + |Aside(state)|) && state.Some? ==>
              (STATE_FILE in names[..n] <==> LosesState(names, arriving, tree, state, luck + 1))
  {
    assert STATE_FILE in tree <==> STATE_FILE in names;
  }

  function Aside<T>(state: Option<T>): Level<T>
  {
    if state.Some? then map[STATE_FILE := Item(false, state.value)] else map[]
  }

  // ---------------------------------------------------------- choosing a generation

  datatype Staged<T> = Staged(names: seq<string>, level: Level<T>)

  /**
   A committed generation: the state file that names it, what fetching, decoding and
   materializing it gives, and how many renames its swap may make.
   */
  datatype Candidate<T> = Candidate(generation: nat, stamp: T, staged: Result<Staged<T>, string>, luck: nat)

  datatype Report = Initialized | Local(generation: nat) | RestoredTo(generation: nat, fallback: bool) | Failed

  predicate Swaps<T>(c: Candidate<T>, names: seq<string>, tree: Level<T>, state: Option<T>)
  {
    c.staged.Ok? && Succeeds(names, |c.staged.value.names|, tree, state, c.luck)
  }

  function StateAfterFailing<T>(c: Candidate<T>, names: seq<string>, tree: Level<T>, state: Option<T>): Option<T>
  {
    if c.staged.Ok? && LosesState(names, |c.staged.value.names|, tree, state, c.luck) then None else state
  }

  /** Which of the last two commits is restored, counting back from the newest from the `k`-th on. */
  function Attempts<T>(committed: seq<Candidate<T>>, names: seq<string>, tree: Level<T>, state: Option<T>,
                       k: nat): Report
    decreases 2 - k
  {
    if k >= 2 || k >= |committed| then Failed
    else
      var c := committed[|committed| - 1 - k];
      if Swaps(c, names, tree, state) then RestoredTo(c.generation, k > 0)
      else Attempts(committed, names, tree, StateAfterFailing(c, names, tree, state), k + 1)
  }

  /** The state file once every attempt from the `k`-th on has failed. */
  function StateLeft<T>(committed: seq<Candidate<T>>, names: seq<string>, tree: Level<T>, state: Option<T>,
                        k: nat): Option<T>
    decreases 2 - k
  {
    if k >= 2 || k >= |committed| then state
    else StateLeft(committed, names, tree, StateAfterFailing(committed[|committed| - 1 - k], names, tree, state), k + 1)
  }

  function Selected<T>(committed: seq<Candidate<T>>, existing: bool, forced: bool, current: T -> bool,
                       names: seq<string>, tree: Level<T>, state: Option<T>): Report
  {
    if committed == [] then (if existing then Failed else Initialized)
    else if state.Some? && current(state.value) && !forced then Local(committed[|committed| - 1].generation)
    else Attempts(committed, names, tree, state, 0)
  }

  /** A workspace whose state file is current is kept, unless a condition forces a restore. */
  lemma CurrentIsKept<T>(committed: seq<Candidate<T>>, existing: bool, forced: bool, current: T -> bool,
                         names: seq<string>, tree: Level<T>, state: Option<T>)
    requires committed != []
    ensures var report := Selected(committed, existing, forced, current, names, tree, state);
            && (report.Local? <==> !forced && state.Some? && current(state.value))
            && (report.Local? ==> report == Local(committed[|committed| - 1].generation))
  {
    AttemptsAreNotLocal(committed, names, tree, state, 0);
  }

  lemma {:induction false} AttemptsAreNotLocal<T>(committed: seq<Candidate<T>>, names: seq<string>, tree: Level<T>,
                                                  state: Option<T>, k: nat)
    ensures !Attempts(committed, names, tree, state, k).Local?
    decreases 2 - k
  {
    if k < 2 && k < |committed| {
      var c := committed[|committed| - 1 - k];
      AttemptsAreNotLocal(committed, names, tree, StateAfterFailing(c, names, tree, state), k + 1);
    }
  }

  /** The newest generation is restored whenever the state file does not name it already and its swap goes through. */
  lemma NewestComesFirst<T>(committed: seq<Candidate<T>>, existing: bool, forced: bool, current: T -> bool,
                            names: seq<string>, tree: Level<T>, state: Option<T>)
    requires committed != [] && Swaps(committed[|committed| - 1], names, tree, state)
    requires forced || state.None? || !current(state.value)
    ensures Selected(committed, existing, forced, current, names, tree, state)
            == RestoredTo(committed[|committed| - 1].generation, false)
  {
  }

  /** If the newest cannot even be staged, the one before it is restored whenever its swap goes through. */
  lemma SecondChance<T>(committed: seq<Candidate<T>>, existing: bool, forced: bool, current: T -> bool,
                        names: seq<string>, tree: Level<T>, state: Option<T>)
    requires |committed| >= 2 && committed[|committed| - 1].staged.Err?
    requires Swaps(committed[|committed| - 2], names, tree, state)
    requires forced || state.None? || !current(state.value)
    ensures Selected(committed, existing, forced, current, names, tree, state)
            == RestoredTo(committed[|committed| - 2].generation, true)
  {
    var newest := committed[|committed| - 1];
    assert StateAfterFailing(newest, names, tree, state) == state;
    assert Attempts(committed, names, tree, state, 0) == Attempts(committed, names, tree, state, 1);
  }

  /** The state file survives a failure at every possible move unless the user keeps a file of its name at the top. */
  lemma StateSurvivesEveryFailure<T>(names: seq<string>, arriving: nat, tree: Level<T>, state: Option<T>)
    requires Lists(names, tree)
    ensures (forall luck: nat :: !LosesState(names, arriving, tree, state, luck))
            <==> !(state.Some? && STATE_FILE in tree && !tree[STATE_FILE].folder)
  {
    if state.Some? && STATE_FILE in tree && !tree[STATE_FILE].folder {
      assert STATE_FILE in names;
      assert LosesState(names, arriving, tree, state, |names| + 1);
    } else {
      assert STATE_FILE in names <==> STATE_FILE in tree;
    }
  }

  class Workspace<T> {
    var tree: Level<T>
    var state: Option<T>
    var backup: Level<T>
    /** How many more forward renames the file system will allow. */
    var luck: nat
    /** Every sight of the workspace since the swap began. */
    ghost var trace: seq<Shot<T>>

    constructor (tree: Level<T>, state: Option<T>)
      ensures this.tree == tree && this.state == state && backup == map[] && trace == []
    {
      this.tree, this.state := tree, state;
      backup, luck, trace := map[], 0, [];
    }

    ghost predicate Vouches(was: Shot<T>, next: Shot<T>)
      reads this
    {
      forall shot | shot in trace :: Vouched(shot, was, next)
    }

    /** Rename one workspace entry into the backup. */
    method MoveOne(name: string, ghost was: Shot<T>, ghost next: Shot<T>) returns (ok: bool)
      requires name in tree && state.None? && Vouches(was, next)
      modifies this`tree, this`backup, this`luck, this`trace
      ensures Vouches(was, next)
      ensures ok == (old(luck) > 0 && !(name in old(backup) && old(tree)[name].folder))
      ensures ok ==>
                luck == old(luck) - 1 && tree == old(tree) - {name} && backup == old(backup)[name := old(tree)[name]]
      ensures !ok ==> luck == old(luck) && tree == old(tree) && backup == old(backup)
    {
      if luck == 0 || (name in backup && tree[name].folder) {
        return false;
      }
      luck := luck - 1;
      backup := backup[name := tree[name]];
      tree := tree - {name};
      trace := trace + [Shot(tree, state)];
      ok := true;
    }

    /** The first `k` listed entries have left the tree for the backup. */
    ghost predicate Underway(names: seq<string>, from: Level<T>, before: Level<T>, k: nat)
      reads this
    {
      k <= |names| && tree == from - Names(names[..k]) && Holding(backup, before, from, Names(names[..k]))
    }

    method MoveNext(names: seq<string>, k: nat, ghost from: Level<T>, ghost before: Level<T>,
                    ghost was: Shot<T>, ghost next: Shot<T>) returns (ok: bool)
      requires k < |names| && Lists(names, from) && Underway(names, from, before, k)
      requires before.Keys <= {STATE_FILE} && state.None? && Vouches(was, next)
      modifies this`tree, this`backup, this`luck, this`trace
      ensures Vouches(was, next)
      ensures ok == (old(luck) > 0 && !(Blocked(from, STATE_FILE in before) && names[k] == STATE_FILE))
      ensures Underway(names, from, before, if ok then k + 1 else k)
      ensures luck == if ok then old(luck) - 1 else old(luck)
    {
      var name := names[k];
      assert name in names;
      NamesFrom(names, k);
      MinusOneMore(from, Names(names[..k]), name);
      HoldingOneMore(backup, before, from, Names(names[..k]), name);
      ok := MoveOne(name, was, next);
    }

    /** Move the listed entries into the backup until a move fails. */
    method MoveOut(names: seq<string>, ghost was: Shot<T>, ghost next: Shot<T>) returns (moved: seq<string>)
      requires Lists(names, tree) && state.None? && Vouches(was, next) && backup.Keys <= {STATE_FILE}
      modifies this`tree, this`backup, this`luck, this`trace
      ensures Vouches(was, next)
      ensures moved <= names && luck == old(luck) - |moved|
      ensures StopsAt(names, Blocked(old(tree), STATE_FILE in old(backup)), old(luck), |moved|)
      ensures Underway(names, old(tree), old(backup), |moved|)
    {
      ghost var from, before, blocked := tree, backup, Blocked(tree, STATE_FILE in backup);
      var k := 0;
      assert Names(names[..0]) == {} && from - {} == from;
      while k < |names|
        invariant k <= |names| && luck == old(luck) - k && Vouches(was, next)
        invariant Underway(names, from, before, k)
        invariant Clear(names, blocked, k)
      {
        var ok := MoveNext(names, k, from, before, was, next);
        if !ok {
          break;
        }
        ClearOneMore(names, blocked, k);
        k := k + 1;
      }
      moved := names[..k];
    }

    /** Move the staged entries in until a move fails. */
    method MoveIn(arriving: seq<string>, stage: Level<T>, ghost was: Shot<T>, ghost next: Shot<T>)
        returns (installed: seq<string>)
      requires Lists(arriving, stage) && tree == map[] && state.None? && Vouches(was, next)
      modifies this`tree, this`luck, this`trace
      ensures Vouches(was, next)
      ensures installed == arriving[..if luck == 0 && old(luck) < |arriving| then old(luck) else |arriving|]
      ensures luck == old(luck) - |installed|
      ensures forall name :: name in tree <==> name in installed
      ensures installed == arriving ==> tree == stage
    {
      installed := [];
      while |installed| < |arriving|
        invariant installed <= arriving && luck == old(luck) - |installed|
        invariant Vouches(was, next)
        invariant forall name :: name in tree <==> name in installed
        invariant forall name | name in tree :: name in stage && tree[name] == stage[name]
        decreases |arriving| - |installed|
      {
        var name := arriving[|installed|];
        assert name in arriving;
        if luck == 0 {
          return;
        }
        luck := luck - 1;
        tree := tree[name := stage[name]];
        installed := installed + [name];
        trace := trace + [Shot(tree, state)];
      }
    }

    method RemoveAll(installed: seq<string>, ghost was: Shot<T>, ghost next: Shot<T>)
      requires state.None? && Vouches(was, next)
      modifies this`tree, this`trace
      ensures Vouches(was, next) && tree == old(tree) - Names(installed)
    {
      for k := 0 to |installed|
        invariant Vouches(was, next)
        invariant tree == old(tree) - Names(installed[..k])
      {
        assert installed[..k + 1] == installed[..k] + [installed[k]];
        NamesSnoc(installed[..k], installed[k]);
        tree := tree - {installed[k]};
        trace := trace + [Shot(tree, state)];
      }
      assert installed[..|installed|] == installed;
    }

    method PutBack(moved: seq<string>, ghost was: Shot<T>, ghost next: Shot<T>)
      requires state.None? && Vouches(was, next)
      requires forall j, k | 0 <= j < k < |moved| :: moved[j] != moved[k]
      requires forall name | name in Names(moved) ::
                name in was.tree && name in backup && backup[name] == was.tree[name]
      requires tree == was.tree - Names(moved)
      modifies this`tree, this`backup, this`trace
      ensures Vouches(was, next) && tree == was.tree
      ensures backup == old(backup) - Names(moved)
    {
      for k := 0 to |moved|
        invariant Vouches(was, next)
        invariant backup == old(backup) - Names(moved[..k])
        invariant tree == was.tree - Names(moved[k..])
      {
        var name := moved[k];
        NamesFrom(moved, k);
        PlusOneBack(was.tree, Names(moved[k + 1..]), name);
        MinusOneMore(old(backup), Names(moved[..k]), name);
        tree := tree - {name};
        trace := trace + [Shot(tree, state)];
        tree := tree[name := backup[name]];
        backup := backup - {name};
        trace := trace + [Shot(tree, state)];
      }
      assert moved[..|moved|] == moved;
    }

    /** Undo a swap that stopped half-way; the state file comes back last, if it is still in the backup. */
    method Undo(installed: seq<string>, moved: seq<string>, guarded: bool, ghost was: Shot<T>, ghost next: Shot<T>)
      requires state.None? && Vouches(was, next) && guarded == was.state.Some?
      requires forall j, k | 0 <= j < k < |moved| :: moved[j] != moved[k]
      requires Holding(backup, Aside(was.state), was.tree, Names(moved))
      requires tree - Names(installed) == was.tree - Names(moved)
      modifies this`tree, this`backup, this`state, this`trace
      ensures Vouches(was, next) && tree == was.tree
      ensures state == if STATE_FILE in moved then None else was.state
    {
      RemoveAll(installed, was, next);
      PutBack(moved, was, next);
      if guarded && STATE_FILE in backup {
        state := Some(backup[STATE_FILE].body);
        backup := backup - {STATE_FILE};
        trace := trace + [Shot(tree, state)];
      }
    }

    /** Set the old state file aside first. */
    method SetAside() returns (ok: bool)
      modifies this
      ensures tree == old(tree) && ok == (old(state).None? || old(luck) > 0)
      ensures ok ==> state == None && backup == Aside(old(state)) && luck == old(luck) - |Aside(old(state))|
      ensures !ok ==> state == old(state)
      ensures forall shot | shot in trace :: shot == Shot(old(tree), old(state)) || shot.state.None?
    {
      backup, trace := map[], [Shot(tree, state)];
      if state.Some? {
        if luck == 0 {
          return false;
        }
        luck := luck - 1;
        backup := map[STATE_FILE := Item(false, state.value)];
        state := None;
        trace := trace + [Shot(tree, state)];
      }
      ok := true;
    }

    /** The moves of the swap, in order, until one fails. */
    method Forward(names: seq<string>, arriving: seq<string>, stage: Level<T>, stamp: T,
                   ghost was: Shot<T>, ghost next: Shot<T>)
        returns (moved: seq<string>, installed: seq<string>, ok: bool)
      requires Lists(names, tree) && Lists(arriving, stage) && state.None? && Vouches(was, next)
      requires tree == was.tree && backup == Aside(was.state) && next == Shot(stage, Some(stamp))
      modifies this
      ensures Vouches(was, next)
      ensures moved <= names && StopsAt(names, Blocked(was.tree, was.state.Some?), old(luck), |moved|)
      ensures ok <==> |moved| == |names| && old(luck) > |names| + |arriving|
      ensures ok ==> tree == stage && state == Some(stamp)
      ensures !ok ==> state == None && tree - Names(installed) == was.tree - Names(moved)
      ensures !ok ==> Holding(backup, Aside(was.state), was.tree, Names(moved))
    {
      moved := MoveOut(names, was, next);
      installed, ok := [], false;
      assert moved == names[..|moved|];
      if |moved| == |names| {
        assert moved == names;
        installed := MoveIn(arriving, stage, was, next);
        if |installed| == |arriving| && luck > 0 {
          luck, state, ok := luck - 1, Some(stamp), true;
          trace := trace + [Shot(tree, state)];
          backup := map[];
        }
      }
    }

    /** Swap the staged tree in, or leave everything as it was. */
    method Install(names: seq<string>, arriving: seq<string>, stage: Level<T>, stamp: T) returns (ok: bool)
      requires Lists(names, tree) && Lists(arriving, stage)
      modifies this
      ensures ok == Succeeds(names, |arriving|, old(tree), old(state), old(luck))
      ensures ok ==> tree == stage && state == Some(stamp)
      ensures !ok ==> tree == old(tree)
      ensures !ok ==>
                state == if LosesState(names, |arriving|, old(tree), old(state), old(luck)) then None else old(state)
      ensures Vouches(Shot(old(tree), old(state)), Shot(stage, Some(stamp)))
    {
      ghost var was, next := Shot(tree, state), Shot(stage, Some(stamp));
      var guarded := state.Some?;
      ok := SetAside();
      if !ok {
        return;
      }
      ok := SwapOrUndo(names, arriving, stage, stamp, guarded, was, next);
    }

    /** The swap once the state file is out of the way. */
    method SwapOrUndo(names: seq<string>, arriving: seq<string>, stage: Level<T>, stamp: T, guarded: bool,
                      ghost was: Shot<T>, ghost next: Shot<T>) returns (ok: bool)
      requires Lists(names, tree) && Lists(arriving, stage) && state.None? && Vouches(was, next)
      requires tree == was.tree && backup == Aside(was.state) && next == Shot(stage, Some(stamp))
      requires guarded == was.state.Some?
      modifies this
      ensures Vouches(was, next)
      ensures var all := old(luck) + |Aside(was.state)|;
              && ok == Succeeds(names, |arriving|, was.tree, was.state, all)
              && (ok ==> tree == stage && state == Some(stamp))
              && (!ok ==> tree == was.tree)
              && (!ok ==> state == if LosesState(names, |arriving|, was.tree, was.state, all) then None else was.state)
    {
      var moved, installed;
      moved, installed, ok := Forward(names, arriving, stage, stamp, was, next);
      HowFar(names, |arriving|, was.tree, was.state, old(luck), |moved|);
      if !ok {
        assert moved == names[..|moved|];
        Undo(installed, moved, guarded, was, next);
      }
    }

    /**
     `restore`: keep a workspace whose state file names the newest generation, otherwise
     try the last two commits, newest first. A failed attempt leaves the tree alone.
     */
    method Restore(committed: seq<Candidate<T>>, existing: bool, forced: bool, current: T -> bool, names: seq<string>)
        returns (report: Report)
      requires Lists(names, tree)
      requires forall i | 0 <= i < |committed| && committed[i].staged.Ok? ::
                 Lists(committed[i].staged.value.names, committed[i].staged.value.level)
      modifies this
      ensures report == Selected(committed, existing, forced, current, names, old(tree), old(state))
      ensures report.RestoredTo? ==> exists i ::
                && |committed| - 2 <= i < |committed| && 0 <= i && committed[i].generation == report.generation
                && committed[i].staged.Ok? && tree == committed[i].staged.value.level
                && state == Some(committed[i].stamp) && report.fallback == (i < |committed| - 1)
      ensures !report.RestoredTo? ==> tree == old(tree)
      ensures report.Failed? ==> state == StateLeft(committed, names, old(tree), old(state), 0)
      ensures report.Local? || report.Initialized? ==> state == old(state)
    {
      if committed == [] {
        return if existing then Failed else Initialized;
      }
      var latest := committed[|committed| - 1];
      if state.Some? && current(state.value) && !forced {
        return Local(latest.generation);
      }
      var tries := if |committed| < 2 then 1 else 2;
      for k := 0 to tries
        invariant tree == old(tree)
        invariant StateLeft(committed, names, old(tree), old(state), 0) == StateLeft(committed, names, tree, state, k)
        invariant Attempts(committed, names, old(tree), old(state), 0) == Attempts(committed, names, tree, state, k)
      {
        var c := committed[|committed| - 1 - k];
        if c.staged.Ok? {
          luck := c.luck;
          var ok := Install(names, c.staged.value.names, c.staged.value.level, c.stamp);
          if ok {
            return RestoredTo(c.generation, k > 0);
          }
        }
      }
      report := Failed;
    }
  }
}
