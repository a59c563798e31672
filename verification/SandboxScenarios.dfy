/** Concrete reachable states: a first start up to the moment a container claims and reports ready. */
module SandboxScenarios {
  import opened Base
  import opened SandboxRecord
  import opened SandboxSystem

  lemma {:induction false} RunSnoc(s: System, steps: seq<Step>, step: Step)
    ensures Run(s, steps + [step]) == Next(Run(s, steps), step)
    decreases |steps|
  {
    if steps == [] {
      assert (steps + [step])[1..] == [];
    } else {
      assert (steps + [step])[1..] == steps[1..] + [step];
      RunSnoc(Next(s, steps[0]), steps[1..], step);
    }
  }

  lemma ReachableNext(s: System, step: Step)
    requires Reachable(s)
    ensures Reachable(Next(s, step))
  {
    var s0: System, steps: seq<Step> :| Created(s0) && Run(s0, steps) == s;
    RunSnoc(s0, steps, step);
  }

  lemma ReachableCreated(s: System)
    requires Created(s)
    ensures Reachable(s)
  {
    assert Run(s, []) == s;
  }

  /** A start of a newly created sandbox, up to the put it is about to make. */
  lemma StartPrepared(s0: System, rotated: Session) returns (s: System, put: Task)
    requires Created(s0) && rotated != s0.rec.session
    ensures Reachable(s) && s == s0.(tasks := s.tasks) && put in s.tasks
    ensures var view := ViewOf(s0.rec);
            put == PutReady(view, DecideStart(view, s0.rec.session, s0.now, false, rotated).updated, ForStart, 0)
  {
    ReachableCreated(s0);
    var view, owner := ViewOf(s0.rec), s0.rec.session;
    var read := StartRead(view, owner, s0.now, 0);
    put := PutReady(view, DecideStart(view, owner, s0.now, false, rotated).updated, ForStart, 0);
    var s1 := s0.(tasks := {StartOpened(owner)});
    assert Next(s0, OpenStart) == s1;
    ReachableNext(s0, OpenStart);
    var s2 := s1.(tasks := s1.tasks + {read});
    assert Next(s1, ReadStart(owner)) == s2;
    ReachableNext(s1, ReadStart(owner));
    s := s2.(tasks := s2.tasks + {put});
    assert Next(s2, DecideTheStart(read, rotated, false)) == s;
    ReachableNext(s2, DecideTheStart(read, rotated, false));
  }

  const FIRST := Session(0)
  const SECOND := Session(1)
  const THIRD := Session(2)
  const A := Instance(0)
  const B := Instance(1)
  const T := 1000

  function NewSandbox(): System
  {
    System(T, Record(FIRST, STOPPED, 0, None, None, None, None, None, None, None, None,
                     None, None, None, None, None, None, None, T),
           map[], map[], {}, {}, {}, map[], {FIRST}, [])
  }

  /** The record right after the start's put landed. */
  function StartedRecord(): Record
  {
    NewSandbox().rec.(session := SECOND, state := STARTING, version := 1, leaseOwner := Some(SECOND),
                      leaseExpires := Some(T + START_LEASE))
  }

  /** What matters of a sandbox in which container A has just booted after a start. */
  predicate Booted(s: System)
  {
    && s.now == T && s.rec == StartedRecord() && s.containers == map[A := Container(None, false, 0)]
    && s.used == {FIRST, SECOND} && s.commits == map[] && s.calls == {}
  }

  lemma FirstBoot() returns (s: System)
    ensures Reachable(s) && Booted(s)
  {
    var prepared, put := StartPrepared(NewSandbox(), SECOND);
    var started := Landed(prepared, put);
    assert Next(prepared, LandPut(put)) == started;
    ReachableNext(prepared, LandPut(put));
    s := Next(started, Boot(A));
    ReachableNext(started, Boot(A));
  }

  /** A claim by A that is about to apply. */
  lemma AboutToClaim() returns (s: System, call: Call)
    ensures Reachable(s) && call == Call(AcquireInit, SECOND, A, T) && call in s.calls && Guard(s.rec, call)
    ensures s.now == T && s.rec == StartedRecord() && s.containers == map[A := Container(None, false, 0)]
    ensures s.used == {FIRST, SECOND} && s.commits == map[] && s.calls == {call}
  {
    var s0 := FirstBoot();
    call := Call(AcquireInit, SECOND, A, T);
    s := s0.(calls := {call});
    assert Next(s0, Send(AcquireInit, SECOND, A)) == s;
    ReachableNext(s0, Send(AcquireInit, SECOND, A));
  }

  /** A has claimed its start. */
  lemma Claimed() returns (s: System)
    ensures Reachable(s) && s.now == T && s.containers == map[A := Container(None, false, 0)] && s.commits == map[]
    ensures s.used == {FIRST, SECOND} && s.rec.session == SECOND && s.rec.state == RESTORING
    ensures s.rec.leaseOwner == Some(SECOND) && s.rec.initOwner == Some(A) && s.rec.holder == Some(A)
    ensures s.rec.pointer == None
  {
    var s0, claim := AboutToClaim();
    s := Applied(s0, claim, true);
    assert Next(s0, Deliver(claim, true)) == s;
    ReachableNext(s0, Deliver(claim, true));
  }

  /** A report of readiness by A that is about to apply. */
  lemma AboutToBeReady() returns (s: System, call: Call)
    ensures Reachable(s) && call == Call(MarkReady("restored"), SECOND, A, T) && call in s.calls && Guard(s.rec, call)
    ensures s.now == T && s.rec.session == SECOND && s.rec.state == RESTORING && s.rec.leaseOwner == Some(SECOND)
    ensures s.containers == map[A := Container(None, true, 0)] && s.used == {FIRST, SECOND}
    ensures s.rec.pointer == None && s.commits == map[]
  {
    var s1 := Claimed();
    var s2 := RestoredBy(s1, A, 0);
    assert Next(s1, Restore(A)) == s2;
    ReachableNext(s1, Restore(A));
    call := Call(MarkReady("restored"), SECOND, A, T);
    s := s2.(calls := s2.calls + {call});
    assert Next(s2, Send(MarkReady("restored"), SECOND, A)) == s;
    ReachableNext(s2, Send(MarkReady("restored"), SECOND, A));
  }
}
