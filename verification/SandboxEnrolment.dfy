/**
 The sealed wake subject is written without moving the version. Its value is
 therefore not the last one enrolled but a function of the whole history, and an
 enrolment is lost exactly when a rewrite goes back to a read made before it.
 */
module SandboxEnrolment {
  import opened Base
  import opened SandboxRecord
  import opened SandboxSystem
  import opened SandboxInvariants
  import opened SandboxScenarios

  predicate IsPut(e: Event) { e.Rotated? || e.Stopped? || e.DeletionAsked? }

  /** How many versioned writes the history holds. */
  function Bumped(log: seq<Event>): nat
    decreases |log|
  {
    if log == [] then 0 else Bumped(log[..|log| - 1]) + if Bumps(log[|log| - 1]) then 1 else 0
  }

  /** The wake subject a history leaves: a put restores the value its own read saw. */
  function Subject(log: seq<Event>): Option<string>
    decreases |log|
  {
    if log == [] then None
    else
      var e := log[|log| - 1];
      if e.Enrolled? then Some(e.sealed)
      else if IsPut(e) then (if e.after < |log| then Subject(log[..e.after]) else None)
      else Subject(log[..|log| - 1])
  }

  // ------------------------------------------------------------- invariant

  /** The view is what the record was after the first `after` events. */
  predicate ReadAfter(log: seq<Event>, view: View, after: nat)
  {
    after <= |log| && view.version == Bumped(log[..after]) && view.wakeSubject == Subject(log[..after])
  }

  predicate TaskRemembers(log: seq<Event>, t: Task)
  {
    && (t.StartRead? ==> ReadAfter(log, t.view, t.after))
    && (t.PutReady? ==>
          && ReadAfter(log, t.read, t.after)
          && t.updated.version == t.read.version + 1 && t.updated.wakeSubject == t.read.wakeSubject)
  }

  predicate TasksRemember(tasks: set<Task>, log: seq<Event>) { forall t | t in tasks :: TaskRemembers(log, t) }

  /** Every put in the history landed with no versioned write since its read. */
  predicate PutsWereQuiet(log: seq<Event>)
  {
    forall k | 0 <= k < |log| && IsPut(log[k]) :: log[k].after <= k && QuietSince(log[..k], log[k].after)
  }

  ghost predicate Remembers(s: System)
  {
    && s.rec.version == Bumped(s.log) && s.rec.wakeSubject == Subject(s.log)
    && TasksRemember(s.tasks, s.log) && PutsWereQuiet(s.log)
  }

  /** The version has not moved since a point of the history exactly when nothing versioned was written since. */
  lemma {:induction false} BumpedSince(log: seq<Event>, n: nat)
    requires n <= |log|
    ensures Bumped(log[..n]) <= Bumped(log)
    ensures Bumped(log[..n]) == Bumped(log) <==> QuietSince(log, n)
    decreases |log|
  {
    if n == |log| {
      assert log[..n] == log;
    } else {
      var front := log[..|log| - 1];
      assert front[..n] == log[..n];
      BumpedSince(front, n);
      assert forall j | n <= j < |front| :: front[j] == log[j];
    }
  }

  lemma TasksRememberMore(tasks: set<Task>, log: seq<Event>, e: Event)
    requires TasksRemember(tasks, log)
    ensures TasksRemember(tasks, log + [e])
  {
    Appended(log, e);
    forall t | t in tasks
      ensures TaskRemembers(log + [e], t)
    {
      assert TaskRemembers(log, t);
    }
  }

  lemma QuietMore(log: seq<Event>, e: Event)
    requires PutsWereQuiet(log) && (IsPut(e) ==> e.after <= |log| && QuietSince(log, e.after))
    ensures PutsWereQuiet(log + [e])
  {
    Appended(log, e);
  }

  lemma DeliverRemembers(s: System, c: Call, reply: bool)
    requires Remembers(s)
    ensures Remembers(Applied(s, c, reply))
  {
    WriteRemembers(s.rec, c);
    WroteRemembers(s, Applied(s, c, reply), Wrote(c, c.op.Receipt? && Replays(s.rec, c.op), reply));
  }

  lemma WroteRemembers(s: System, s': System, e: Event)
    requires Remembers(s) && e.Wrote? && s'.log == s.log + [e] && s'.tasks == s.tasks
    requires s'.rec.version == s.rec.version + if Bumps(e) then 1 else 0
    requires s'.rec.wakeSubject == s.rec.wakeSubject
    ensures Remembers(s')
  {
    AfterWrite(s.log, e);
    TasksRememberMore(s.tasks, s.log, e);
    QuietMore(s.log, e);
  }

  lemma AfterWrite(log: seq<Event>, e: Event)
    requires e.Wrote?
    ensures Bumped(log + [e]) == Bumped(log) + (if Bumps(e) then 1 else 0) && Subject(log + [e]) == Subject(log)
  {
    assert (log + [e])[..|log|] == log;
  }

  lemma WriteRemembers(r: Record, c: Call)
    ensures Write(r, c).wakeSubject == r.wakeSubject && Write(r, c).version == r.version + if BeatOp(c.op) then 0 else 1
  {
  }

  lemma LandRemembers(s: System, put: Task)
    requires Remembers(s) && put in s.tasks && put.PutReady? && put.read.version == s.rec.version
    ensures Remembers(Landed(s, put))
  {
    assert TaskRemembers(s.log, put);
    BumpedSince(s.log, put.after);
    Appended(s.log, EventOf(put));
    TasksRememberMore(s.tasks, s.log, EventOf(put));
    QuietMore(s.log, EventOf(put));
  }

  lemma NoteRemembers(s: System, s': System, e: Event)
    requires Remembers(s) && Notes(e) && s'.log == s.log + [e] && s'.tasks == s.tasks && s'.rec.version == s.rec.version
    requires s'.rec.wakeSubject == if e.Enrolled? then Some(e.sealed) else s.rec.wakeSubject
    ensures Remembers(s')
  {
    Appended(s.log, e);
    TasksRememberMore(s.tasks, s.log, e);
    QuietMore(s.log, e);
  }

  /** A read of the record now. */
  lemma ReadNow(s: System)
    requires Remembers(s)
    ensures ReadAfter(s.log, ViewOf(s.rec), |s.log|)
  {
    assert s.log[..|s.log|] == s.log;
  }

  lemma ControlRemembers(s: System, step: Step)
    requires Remembers(s)
    requires step.ReadStart? || step.DecideTheStart? || step.ReadStop? || step.ReadDeletion?
    ensures Remembers(Next(s, step))
  {
    ReadNow(s);
    if (step.DecideTheStart? || step.ReadStop?) && step.task in s.tasks {
      assert TaskRemembers(s.log, step.task);
    }
  }

  lemma RemembersNext(s: System, step: Step)
    requires Remembers(s)
    ensures Remembers(Next(s, step))
  {
    match step
    case Deliver(c, reply) => if c in s.calls && Guard(s.rec, c) { DeliverRemembers(s, c, reply); }
    case LandPut(put) =>
      if put in s.tasks && put.PutReady? && put.read.version == s.rec.version { LandRemembers(s, put); }
    case EnrolWake(sealed) => NoteRemembers(s, EnrolledAs(s, sealed), Enrolled(sealed));
    case Restore(i) =>
      var newest := MaxOf(s.commits.Keys);
      NoteRemembers(s, RestoredBy(s, i, newest), Restored(i, newest));
    case ReadStart(_) => ControlRemembers(s, step);
    case DecideTheStart(_, _, _) => ControlRemembers(s, step);
    case ReadStop(_) => ControlRemembers(s, step);
    case ReadDeletion => ControlRemembers(s, step);
    case _ =>
  }

  lemma {:induction false} RemembersRun(s: System, steps: seq<Step>)
    requires Remembers(s)
    ensures Remembers(Run(s, steps))
    decreases |steps|
  {
    if steps != [] {
      RemembersNext(s, steps[0]);
      RemembersRun(Next(s, steps[0]), steps[1..]);
    }
  }

  lemma ReachableRemembers(s: System)
    requires Reachable(s)
    ensures Remembers(s)
  {
    var s0: System, steps: seq<Step> :| Created(s0) && Run(s0, steps) == s;
    RemembersRun(s0, steps);
  }

  // --------------------------------------------------------------- theorems

  /** A prepared put lands exactly when nothing versioned was written since its read. */
  lemma PutLandsIffQuiet(s: System, put: Task)
    requires Reachable(s) && put in s.tasks && put.PutReady?
    ensures put.after <= |s.log|
    ensures put.read.version == s.rec.version <==> QuietSince(s.log, put.after)
  {
    ReachableRemembers(s);
    assert TaskRemembers(s.log, put);
    BumpedSince(s.log, put.after);
  }

  /** The last enrolment at or after position `from`. */
  predicate LastEnrolment(log: seq<Event>, from: nat, i: nat)
  {
    from <= i < |log| && log[i].Enrolled? && forall j | i < j < |log| :: !log[j].Enrolled?
  }

  lemma {:induction false} SubjectSince(log: seq<Event>, from: nat)
    requires QuietSince(log, from)
    ensures Subject(log) != Subject(log[..from]) <==>
              exists i: nat :: LastEnrolment(log, from, i) && Some(log[i].sealed) != Subject(log[..from])
    ensures forall i: nat | LastEnrolment(log, from, i) :: Subject(log) == Some(log[i].sealed)
    decreases |log|
  {
    if |log| == from {
      assert log[..from] == log;
    } else {
      var front, e := log[..|log| - 1], log[|log| - 1];
      assert front[..from] == log[..from];
      assert forall j | from <= j < |front| :: front[j] == log[j];
      if e.Enrolled? {
        assert LastEnrolment(log, from, |log| - 1);
      } else {
        SubjectSince(front, from);
        assert forall i: nat :: LastEnrolment(log, from, i) <==> LastEnrolment(front, from, i);
      }
    }
  }

  /**
   A put loses an enrolment exactly when nothing versioned was written since its read and
   the last enrolment since then brought another value than the one the read saw.
   */
  lemma PutLosesEnrolment(s: System, put: Task)
    requires Reachable(s) && put in s.tasks && put.PutReady?
    ensures put.after <= |s.log|
    ensures Next(s, LandPut(put)).rec.wakeSubject != s.rec.wakeSubject <==>
              && QuietSince(s.log, put.after)
              && exists i: nat ::
                   LastEnrolment(s.log, put.after, i) && Some(s.log[i].sealed) != Subject(s.log[..put.after])
  {
    PutLandsIffQuiet(s, put);
    ReachableRemembers(s);
    assert TaskRemembers(s.log, put);
    if QuietSince(s.log, put.after) {
      SubjectSince(s.log, put.after);
    }
  }

  /** A put after the enrolment at `i` that goes back to a read before it, of another value. */
  predicate Straddles(log: seq<Event>, i: nat, k: nat)
    requires i < |log| && log[i].Enrolled?
  {
    i < k < |log| && IsPut(log[k]) && log[k].after <= i && Subject(log[..log[k].after]) != Some(log[i].sealed)
  }

  ghost predicate Straddled(log: seq<Event>, i: nat, n: nat)
    requires i < |log| && log[i].Enrolled?
  {
    exists k: nat :: k < n && Straddles(log, i, k)
  }

  lemma {:induction false} SubjectUnlessStraddled(log: seq<Event>, i: nat, n: nat)
    requires PutsWereQuiet(log) && LastEnrolment(log, 0, i) && i < n <= |log|
    ensures Subject(log[..n]) == Some(log[i].sealed) <==> !Straddled(log, i, n)
    decreases n
  {
    var e, front := log[n - 1], log[..n - 1];
    assert log[..n][..n - 1] == front && log[..n][n - 1] == e;
    if n - 1 > i {
      if IsPut(e) {
        assert QuietSince(front, e.after) && log[..n][..e.after] == log[..e.after];
        assert forall k | e.after <= k < n - 1 :: front[k] == log[k] && !IsPut(log[k]);
        if e.after > i {
          SubjectUnlessStraddled(log, i, e.after);
        } else {
          assert Straddles(log, i, n - 1) <==> Subject(log[..e.after]) != Some(log[i].sealed);
        }
      } else {
        SubjectUnlessStraddled(log, i, n - 1);
      }
    }
  }

  /**
   Over every history: the record holds the last subject enrolled exactly unless a rewrite
   landed after it that goes back to a read made before it and of another value.
   */
  lemma EnrolmentKeptUnlessStraddled(s: System, i: nat)
    requires Reachable(s) && LastEnrolment(s.log, 0, i)
    ensures s.rec.wakeSubject == Some(s.log[i].sealed) <==> !Straddled(s.log, i, |s.log|)
  {
    ReachableRemembers(s);
    SubjectUnlessStraddled(s.log, i, |s.log|);
    assert s.log[..|s.log|] == s.log;
  }

  /** It does happen: a reachable state in which a prepared put erases an enrolment that landed after its read. */
  lemma EnrolmentCanBeOverwritten(s0: System, rotated: Session, sealed: string) returns (s: System, put: Task)
    requires Created(s0) && rotated != s0.rec.session
    ensures Reachable(s) && s.rec.wakeSubject == Some(sealed)
    ensures put in s.tasks && Next(s, LandPut(put)).rec.wakeSubject == None
  {
    var prepared, p := StartPrepared(s0, rotated);
    put := p;
    s := EnrolledAs(prepared, sealed);
    assert Next(prepared, EnrolWake(sealed)) == s;
    ReachableNext(prepared, EnrolWake(sealed));
  }
}
