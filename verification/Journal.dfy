/** `DirtyJournal`: numbered dirty marks, cleared only up to a snapshot. */
module Journal {
  import opened Base
  import opened Paths

  datatype Mark = Mark(sequence: nat, path: string, at: int)

  datatype JournalSnapshot = JournalSnapshot(through: nat, paths: set<string>, firstDirty: Option<int>)

  /** Marks are numbered from 1 in increasing order, all below the next number. */
  predicate Numbered(marks: seq<Mark>, next: nat)
  {
    && next >= 1
    && (forall i | 0 <= i < |marks| :: 1 <= marks[i].sequence < next)
    && (forall i, j | 0 <= i < j < |marks| :: marks[i].sequence < marks[j].sequence)
  }

  function Later(marks: seq<Mark>, through: nat): seq<Mark>
  {
    if marks == [] then []
    else
      var before := Later(marks[..|marks| - 1], through);
      if marks[|marks| - 1].sequence > through then before + [marks[|marks| - 1]] else before
  }

  function Through(marks: seq<Mark>): nat
  {
    if marks == [] then 0 else marks[|marks| - 1].sequence
  }

  lemma {:induction false} LaterKeepsTail(seen: seq<Mark>, after: seq<Mark>, through: nat)
    requires forall i | 0 <= i < |after| :: after[i].sequence > through
    ensures Later(seen + after, through) == Later(seen, through) + after
    decreases |after|
  {
    var all := seen + after;
    if after == [] {
      assert all == seen;
    } else {
      var shorter := after[..|after| - 1];
      assert all[..|all| - 1] == seen + shorter;
      LaterKeepsTail(seen, shorter, through);
    }
  }

  /** Clearing through a snapshot forgets exactly the marks it saw and keeps every later one. */
  lemma LaterIsWhatCameAfter(seen: seq<Mark>, after: seq<Mark>, next: nat)
    requires Numbered(seen + after, next)
    ensures Later(seen + after, Through(seen)) == after
  {
    var all := seen + after;
    forall i | 0 <= i < |after|
      ensures after[i].sequence > Through(seen)
    {
      assert all[|seen| + i] == after[i];
      assert seen != [] ==> all[|seen| - 1] == seen[|seen| - 1];
    }
    LaterKeepsTail(seen, after, Through(seen));
    assert forall i | 0 <= i < |seen| :: all[i] == seen[i];
    NoneLater(seen, Through(seen), next);
  }

  lemma {:induction false} LaterNumbered(marks: seq<Mark>, through: nat, next: nat)
    requires Numbered(marks, next)
    ensures Numbered(Later(marks, through), next)
    ensures forall m | m in Later(marks, through) :: m in marks
    decreases |marks|
  {
    if marks != [] {
      var front, last := marks[..|marks| - 1], marks[|marks| - 1];
      LaterNumbered(front, through, next);
      var before := Later(front, through);
      forall i | 0 <= i < |before|
        ensures before[i].sequence < last.sequence
      {
        assert before[i] in front;
      }
    }
  }

  lemma {:induction false} NoneLater(marks: seq<Mark>, through: nat, next: nat)
    requires Numbered(marks, next) && (marks != [] ==> marks[|marks| - 1].sequence <= through)
    ensures Later(marks, through) == []
    decreases |marks|
  {
    if marks != [] {
      NoneLater(marks[..|marks| - 1], through, next);
    }
  }

  predicate SafeRelative(path: string)
  {
    var parts := TargetParts(Split(path));
    !Absolute(path) && ".." !in parts && parts != []
  }

  /** A path is recorded exactly if it is relative, never goes up and names something. */
  lemma SafeRelativeIs(path: string)
    ensures SafeRelative(path)
            <==> && !Absolute(path) && ".." !in Split(path)
                 && exists part :: part in Split(path) && part != "" && part != "."
  {
    var segments, parts := Split(path), TargetParts(Split(path));
    TargetPartsMembers(segments, "..");
    if parts != [] {
      TargetPartsMembers(segments, parts[0]);
    }
    if part :| part in segments && part != "" && part != "." {
      TargetPartsMembers(segments, part);
    }
  }

  lemma AbsoluteIsNotRecorded(rest: string)
    ensures !SafeRelative("/" + rest)
  {
  }

  /** What is recorded is the path itself if it is in normal form, and is always in normal form. */
  lemma RecordedInNormalForm(path: string)
    requires SafeRelative(path)
    ensures var recorded := Join(TargetParts(Split(path)));
            Split(recorded) == TargetParts(Split(path)) && Proper(Split(recorded)) && ".." !in Split(recorded)
    ensures Proper(Split(path)) ==> Join(TargetParts(Split(path))) == path
  {
    var parts := TargetParts(Split(path));
    forall i | 0 <= i < |parts|
      ensures Segment(parts[i])
    {
      TargetPartsMembers(Split(path), parts[i]);
    }
    SplitJoin(parts);
    if Proper(Split(path)) {
      NormalStays(Split(path));
      JoinSplit(path);
    }
  }

  lemma {:induction false} NormalStays(segments: seq<string>)
    requires forall i | 0 <= i < |segments| :: Segment(segments[i])
    ensures TargetParts(segments) == segments
    decreases |segments|
  {
    if segments != [] {
      NormalStays(segments[1..]);
    }
  }

  /** One mark for each safe path, in order, numbered on from `next`. */
  function MarksOf(paths: seq<string>, next: nat, at: int): seq<Mark>
    decreases |paths|
  {
    if paths == [] then []
    else
      var before, last := MarksOf(paths[..|paths| - 1], next, at), paths[|paths| - 1];
      if SafeRelative(last) then before + [Mark(next + |before|, Join(TargetParts(Split(last))), at)] else before
  }

  class DirtyJournal {
    var marks: seq<Mark>
    var next: nat

    ghost predicate Valid()
      reads this
    {
      Numbered(marks, next)
    }

    constructor ()
      ensures Valid() && marks == []
    {
      marks, next := [], 1;
    }

    method Record(path: string, at: int) returns (r: Result<Mark, string>)
      requires Valid()
      modifies this
      ensures Valid()
      ensures r.Ok? <==> SafeRelative(path)
      ensures r.Ok? ==> marks == old(marks) + [r.value]
      ensures r.Ok? ==> r.value == Mark(old(next), Join(TargetParts(Split(path))), at) && next == old(next) + 1
      ensures r.Err? ==> marks == old(marks) && next == old(next)
    {
      var parts := TargetParts(Split(path));
      if Absolute(path) || ".." in parts || parts == [] {
        return Err("Dirty path must be a safe relative workspace path.");
      }
      var mark := Mark(next, Join(parts), at);
      next := next + 1;
      marks := marks + [mark];
      r := Ok(mark);
    }

    method Snapshot() returns (s: JournalSnapshot)
      requires Valid()
      ensures s.through == Through(marks)
      ensures s.paths == set m | m in marks :: m.path
      ensures s.firstDirty == if marks == [] then None else Some(marks[0].at)
    {
      if marks == [] {
        return JournalSnapshot(0, {}, None);
      }
      s := JournalSnapshot(marks[|marks| - 1].sequence, set m | m in marks :: m.path, Some(marks[0].at));
    }

    method ClearThrough(sequence: nat)
      requires Valid()
      modifies this`marks
      ensures Valid()
      ensures marks == Later(old(marks), sequence)
    {
      var kept: seq<Mark> := [];
      for i := 0 to |marks|
        invariant kept == Later(marks[..i], sequence)
        invariant marks == old(marks)
      {
        assert marks[..i + 1][..i] == marks[..i];
        if marks[i].sequence > sequence {
          kept := kept + [marks[i]];
        }
      }
      assert marks[..|marks|] == marks;
      LaterNumbered(marks, sequence, next);
      marks := kept;
    }
  }
}
