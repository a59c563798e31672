/**
 The invariant of the sandbox protocol and its preservation by every step.
 */
module SandboxInvariants {
  import opened Base
  import opened SandboxRecord
  import opened SandboxSystem

  // ------------------------------------------------- reading the history

  predicate IsReceipt(e: Event) { e.Wrote? && e.call.op.Receipt? }

  /** Calls that only the last claimant may have applied: all but a claim and a heal. */
  predicate HolderOnly(e: Event) { e.Wrote? && !e.call.op.AcquireInit? && !e.call.op.HealReady? }

  predicate BeatOp(op: Op) { op.HeartbeatInit? || op.HeartbeatLease? }

  /** Only heartbeats and enrolments write the record without moving the version. */
  predicate Bumps(e: Event) { !e.Enrolled? && !e.Restored? && !(e.Wrote? && BeatOp(e.call.op)) }

  function LastAcquirer(log: seq<Event>): Option<Instance>
    decreases |log|
  {
    if log == [] then None
    else
      var e := log[|log| - 1];
      if e.Wrote? && e.call.op.AcquireInit? then Some(e.call.instance) else LastAcquirer(log[..|log| - 1])
  }

  function LastAccepted(log: seq<Event>): Option<nat>
    decreases |log|
  {
    if log == [] then None
    else
      var e := log[|log| - 1];
      if IsReceipt(e) then Some(e.call.op.gen) else LastAccepted(log[..|log| - 1])
  }

  function LastDue(log: seq<Event>): Option<(nat, string)>
    decreases |log|
  {
    if log == [] then None
    else
      var e := log[|log| - 1];
      if IsReceipt(e) && e.call.op.hints.due.Some? then e.call.op.hints.due else LastDue(log[..|log| - 1])
  }

  function LastRestoreSeconds(log: seq<Event>): Option<nat>
    decreases |log|
  {
    if log == [] then None
    else
      var e := log[|log| - 1];
      if IsReceipt(e) && e.call.op.hints.restoreSeconds.Some? then e.call.op.hints.restoreSeconds
      else LastRestoreSeconds(log[..|log| - 1])
  }

  /** No versioned write since position `seen`. */
  predicate QuietSince(log: seq<Event>, seen: nat)
  {
    seen <= |log| && forall j | seen <= j < |log| :: !Bumps(log[j])
  }

  // -------------------------------------------------------- the invariant

  /** The part of the record that no one changes without moving the version. */
  predicate SameVersioned(v: View, w: View)
  {
    && v.session == w.session && v.state == w.state && v.leaseOwner == w.leaseOwner
    && v.pointer == w.pointer && v.holder == w.holder
    && v.nextDueAt == w.nextDueAt && v.nextDueJob == w.nextDueJob && v.restoreSeconds == w.restoreSeconds
    && v.lastRestore == w.lastRestore && v.deletion == w.deletion
  }

  predicate NotAhead(v: View, r: Record)
  {
    && v.version <= r.version
    && (v.version == r.version ==> SameVersioned(v, ViewOf(r)))
  }

  predicate Soon(t: Option<int>, now: int) { t.Some? ==> t.value <= now + 90 }

  predicate TimelyView(v: View, now: int)
  {
    Soon(v.leaseExpires, now) && Soon(v.initExpires, now) && v.updatedAt <= now
  }

  predicate Clocked(s: System)
  {
    && TimelyView(ViewOf(s.rec), s.now)
    && (forall c | c in s.calls :: c.at <= s.now)
    && (forall t | t in s.tasks && t.StartRead? :: TimelyView(t.view, s.now) && t.readAt <= s.now)
    && (forall t | t in s.tasks && t.PutReady? :: TimelyView(t.updated, s.now))
  }

  predicate LeaseFollowsSession(leaseOwner: Option<Session>, session: Session)
  {
    leaseOwner == None || leaseOwner == Some(session)
  }

  predicate Owned(s: System)
  {
    && s.rec.session in s.used
    && LeaseFollowsSession(s.rec.leaseOwner, s.rec.session)
    && (s.rec.initOwner.Some? ==> s.rec.holder == s.rec.initOwner && s.rec.state == RESTORING)
    && (forall c | c in s.calls :: c.session in s.used)
  }

  predicate FollowsLog(s: System)
  {
    && s.rec.holder == LastAcquirer(s.log)
    && s.rec.pointer == LastAccepted(s.log)
    && (match LastDue(s.log)
        case None => s.rec.nextDueAt == None && s.rec.nextDueJob == None
        case Some(due) => s.rec.nextDueAt == Some(due.0) && s.rec.nextDueJob == Some(due.1))
    && s.rec.restoreSeconds == LastRestoreSeconds(s.log)
  }

  /** The put is its read with exactly the change its operation makes. */
  predicate Prepared(read: View, updated: View, kind: PutKind)
  {
    match kind
    case ForStart =>
      updated == read.(state := STARTING, version := read.version + 1, session := updated.session,
                       leaseOwner := Some(updated.session), leaseExpires := updated.leaseExpires,
                       updatedAt := updated.updatedAt)
    case ForStop(_, _) => updated == StoppedView(read, updated.updatedAt)
    case ForDeletion => updated == DeletionView(read, updated.updatedAt) && read.state == STOPPED
  }

  predicate StopBacked(s: System, version: nat, token: Token, seen: nat)
  {
    && token in s.tokens
    && seen <= |s.log|
    && version <= s.rec.version
    && (version == s.rec.version ==>
          && s.rec.state == STOPPING && s.rec.pointer == Some(token.gen) && s.rec.session == token.session
          && QuietSince(s.log, seen))
  }

  predicate TaskOk(s: System, t: Task)
  {
    match t
    case StartOpened(_) => true
    case StartRead(view, _, _, _) => NotAhead(view, s.rec) && LeaseFollowsSession(view.leaseOwner, view.session)
    case StopChecked(version, _, token, seen) => StopBacked(s, version, token, seen)
    case PutReady(read, updated, kind, _) =>
      && NotAhead(read, s.rec)
      && Prepared(read, updated, kind)
      && LeaseFollowsSession(updated.leaseOwner, updated.session)
      && (read.version == s.rec.version && kind.ForStart? ==> updated.session !in s.used)
      && (kind.ForStop? ==> StopBacked(s, read.version, kind.token, kind.seen))
  }

  predicate TasksOk(s: System) { forall t | t in s.tasks :: TaskOk(s, t) }

  /** A call that only a ready container sends exists only after somebody acquired the sandbox. */
  predicate NeedsHolder(op: Op) { op.HeartbeatLease? || op.HealReady? || op.Receipt? }

  predicate CallsOk(s: System)
  {
    && (forall c | c in s.calls :: WellFormedOp(c.op) && NamesCommit(s.commits, c.op))
    && (forall c | c in s.calls && NeedsHolder(c.op) :: s.rec.holder.Some?)
    && (forall i | i in s.containers && s.containers[i].ready.Some? :: s.rec.holder.Some?)
  }

  predicate Catalogued(s: System)
  {
    && (forall g | g in s.catalog :: g in s.commits && s.commits[g] == s.catalog[g])
    && (s.rec.pointer.None? ==> s.catalog == map[])
    && (s.rec.pointer.Some? ==> s.rec.pointer.value in s.catalog)
    && (forall g | g in s.catalog :: s.rec.pointer.Some? && g <= s.rec.pointer.value)
    && (forall t | t in s.tokens :: t.gen in s.catalog && s.catalog[t.gen] == t.digest)
    && (s.rec.pointer.Some? && s.rec.pointerDigest.Some? ==>
          s.catalog[s.rec.pointer.value] == s.rec.pointerDigest.value)
  }

  predicate Fenced(log: seq<Event>)
  {
    forall k | 0 <= k < |log| && HolderOnly(log[k]) ::
      LastAcquirer(log[..k]) == Some(log[k].call.instance)
  }

  /** Every receipt but an exact replay descends from all receipts accepted before it. */
  predicate Chained(log: seq<Event>)
  {
    forall j, k | 0 <= j < k < |log| && IsReceipt(log[j]) && IsReceipt(log[k]) ::
      if log[k].replay then log[j].call.op.gen <= log[k].call.op.gen
      else log[j].call.op.gen <= log[k].call.op.base < log[k].call.op.gen
  }

  /** The generation pointer is at least every generation ever accepted. */
  predicate Below(s: System)
  {
    forall k | 0 <= k < |s.log| && IsReceipt(s.log[k]) ::
      s.rec.pointer.Some? && s.log[k].call.op.gen <= s.rec.pointer.value
  }

  predicate StopsBacked(s: System)
  {
    forall k | 0 <= k < |s.log| && s.log[k].Stopped? ::
      && s.log[k].token in s.tokens
      && LastAccepted(s.log[..k]) == Some(s.log[k].token.gen)
      && QuietSince(s.log[..k], s.log[k].seen)
  }

  ghost predicate Inv(s: System)
  {
    && Clocked(s) && Owned(s) && FollowsLog(s) && TasksOk(s) && CallsOk(s) && Catalogued(s)
    && Fenced(s.log) && Chained(s.log) && StopsBacked(s) && Below(s)
  }

  // ------------------------------------------- steps that leave the log alone

  /** What the log, the catalogue and the commits say of the record. */
  ghost predicate Backed(s: System)
  {
    FollowsLog(s) && Catalogued(s) && Fenced(s.log) && Chained(s.log) && StopsBacked(s) && Below(s)
  }

  lemma StaysBacked(s: System, s': System)
    requires Backed(s) && s'.rec == s.rec && s'.log == s.log && s'.catalog == s.catalog
    requires s'.commits == s.commits && s'.tokens == s.tokens
    ensures Backed(s')
  {
  }

  lemma TickClocked(s: System, seconds: nat)
    requires Clocked(s)
    ensures Clocked(s.(now := s.now + seconds))
  {
  }

  lemma TickTasks(s: System, seconds: nat)
    requires TasksOk(s)
    ensures TasksOk(s.(now := s.now + seconds))
  {
    forall t | t in s.tasks
      ensures TaskOk(s.(now := s.now + seconds), t)
    {
      assert TaskOk(s, t);
    }
  }

  lemma TickNext(s: System, seconds: nat)
    requires Inv(s)
    ensures Inv(s.(now := s.now + seconds))
  {
    TickClocked(s, seconds);
    TickTasks(s, seconds);
    StaysBacked(s, s.(now := s.now + seconds));
  }

  /** Events that tell of no versioned write. */
  predicate Notes(e: Event) { e.Enrolled? || e.Restored? }

  lemma NotedLog(s: System, e: Event)
    requires Notes(e) && FollowsLog(s) && Below(s) && StopsBacked(s)
    ensures FollowsLog(s.(log := s.log + [e])) && Below(s.(log := s.log + [e])) && StopsBacked(s.(log := s.log + [e]))
  {
    Appended(s.log, e);
  }

  lemma NotedChain(log: seq<Event>, e: Event)
    requires Notes(e) && Fenced(log) && Chained(log)
    ensures Fenced(log + [e]) && Chained(log + [e])
  {
    Appended(log, e);
  }

  lemma NotedTasks(s: System, e: Event)
    requires Notes(e) && TasksOk(s)
    ensures TasksOk(s.(log := s.log + [e]))
  {
    var s' := s.(log := s.log + [e]);
    forall t | t in s'.tasks
      ensures TaskOk(s', t)
    {
      assert TaskOk(s, t);
    }
  }

  /** Such an event changes nothing the invariant speaks of. */
  lemma NoteNext(s: System, e: Event)
    requires Inv(s) && Notes(e)
    ensures Inv(s.(log := s.log + [e]))
  {
    NotedLog(s, e);
    NotedChain(s.log, e);
    NotedTasks(s, e);
  }

  lemma SubjectNext(s: System, sealed: string)
    requires Inv(s)
    ensures Inv(s.(rec := s.rec.(wakeSubject := Some(sealed))))
  {
  }

  lemma EnrolNext(s: System, sealed: string)
    requires Inv(s)
    ensures Inv(EnrolledAs(s, sealed))
  {
    var written := s.(rec := s.rec.(wakeSubject := Some(sealed)));
    SubjectNext(s, sealed);
    NoteNext(written, Enrolled(sealed));
    assert EnrolledAs(s, sealed) == written.(log := written.log + [Enrolled(sealed)]);
  }

  lemma RestoreNext(s: System, i: Instance, newest: nat)
    requires Inv(s)
    ensures Inv(RestoredBy(s, i, newest))
  {
    var restored := s.(containers := s.containers[i := Container(None, true, newest)]);
    ContainerNext(s, i, Container(None, true, newest));
    NoteNext(restored, Restored(i, newest));
    assert RestoredBy(s, i, newest) == restored.(log := restored.log + [Restored(i, newest)]);
  }

  lemma CommitNext(s: System, gen: nat, digest: Digest)
    requires Inv(s) && gen !in s.commits
    ensures Inv(s.(commits := s.commits[gen := digest]))
  {
  }

  lemma ContainerNext(s: System, i: Instance, c: Container)
    requires Inv(s) && (c.ready.Some? ==> s.rec.holder.Some?)
    ensures Inv(s.(containers := s.containers[i := c]))
  {
  }

  lemma SendNext(s: System, op: Op, session: Session, instance: Instance)
    requires Inv(s) && CanSend(s, op, session, instance)
    ensures Inv(s.(calls := s.calls + {Call(op, session, instance, s.now)}))
  {
    var s' := s.(calls := s.calls + {Call(op, session, instance, s.now)});
    StaysBacked(s, s');
    assert TasksOk(s') by {
      assert forall t | t in s.tasks :: TaskOk(s, t) ==> TaskOk(s', t);
    }
  }

  lemma TaskNext(s: System, t: Task)
    requires Inv(s) && TaskOk(s, t)
    requires t.StartRead? ==> TimelyView(t.view, s.now) && t.readAt <= s.now
    requires t.PutReady? ==> TimelyView(t.updated, s.now)
    ensures Inv(s.(tasks := s.tasks + {t}))
  {
    TaskClocked(s, t);
    TaskJoins(s, t);
  }

  lemma TaskClocked(s: System, t: Task)
    requires Clocked(s)
    requires t.StartRead? ==> TimelyView(t.view, s.now) && t.readAt <= s.now
    requires t.PutReady? ==> TimelyView(t.updated, s.now)
    ensures Clocked(s.(tasks := s.tasks + {t}))
  {
  }

  lemma TaskJoins(s: System, t: Task)
    requires TasksOk(s) && TaskOk(s, t)
    ensures TasksOk(s.(tasks := s.tasks + {t}))
  {
    var s' := s.(tasks := s.tasks + {t});
    forall u | u in s'.tasks
      ensures TaskOk(s', u)
    {
      assert u in s.tasks ==> TaskOk(s, u);
    }
  }

  lemma DecideNext(s: System, t: Task, rotated: Session, confirmed: bool)
    requires Inv(s) && t in s.tasks && t.StartRead? && rotated !in s.used
    requires DecideStart(t.view, t.owner, s.now, confirmed, rotated).Rotate?
    ensures var updated := DecideStart(t.view, t.owner, s.now, confirmed, rotated).updated;
            Inv(s.(tasks := s.tasks + {PutReady(t.view, updated, ForStart, t.after)}))
  {
    assert TaskOk(s, t);
    TaskNext(s, PutReady(t.view, DecideStart(t.view, t.owner, s.now, confirmed, rotated).updated, ForStart, t.after));
  }

  lemma CheckStopNext(s: System, token: Token)
    requires Inv(s) && StopAllowed(s, token)
    ensures Inv(s.(tasks := s.tasks + {StopChecked(s.rec.version, s.rec.leaseOwner, token, |s.log|)}))
  {
    TaskNext(s, StopChecked(s.rec.version, s.rec.leaseOwner, token, |s.log|));
  }

  lemma ReadStopNext(s: System, t: Task)
    requires Inv(s) && t in s.tasks && StopStillCurrent(s, t)
    ensures var view := ViewOf(s.rec);
            Inv(s.(tasks := s.tasks + {PutReady(view, StoppedView(view, s.now), ForStop(t.token, t.seen), |s.log|)}))
  {
    assert TaskOk(s, t);
    var view := ViewOf(s.rec);
    TaskNext(s, PutReady(view, StoppedView(view, s.now), ForStop(t.token, t.seen), |s.log|));
  }

  // ------------------------------------------------- a broker write lands

  /** What an applied call does to the version and the versioned fields. */
  lemma WriteVersions(r: Record, c: Call)
    ensures BeatOp(c.op) ==> Write(r, c).version == r.version && SameVersioned(ViewOf(Write(r, c)), ViewOf(r))
    ensures !BeatOp(c.op) ==> Write(r, c).version == r.version + 1
    ensures Write(r, c).session == r.session
  {
  }

  lemma DeliverClocked(s: System, c: Call, reply: bool)
    requires Clocked(s) && c in s.calls
    ensures Clocked(Applied(s, c, reply))
  {
  }

  lemma DeliverOwned(s: System, c: Call, reply: bool)
    requires Owned(s) && c in s.calls && Guard(s.rec, c)
    ensures Owned(Applied(s, c, reply))
  {
  }

  lemma Appended(log: seq<Event>, e: Event)
    ensures (log + [e])[..|log|] == log
    ensures forall k | 0 <= k <= |log| :: (log + [e])[..k] == log[..k]
  {
  }

  /** What one more event means for what is read off the history. */
  lemma LastAfter(log: seq<Event>, e: Event)
    ensures LastAcquirer(log + [e])
            == if e.Wrote? && e.call.op.AcquireInit? then Some(e.call.instance) else LastAcquirer(log)
    ensures LastAccepted(log + [e]) == if IsReceipt(e) then Some(e.call.op.gen) else LastAccepted(log)
    ensures LastDue(log + [e])
            == if IsReceipt(e) && e.call.op.hints.due.Some? then e.call.op.hints.due else LastDue(log)
    ensures LastRestoreSeconds(log + [e])
            == if IsReceipt(e) && e.call.op.hints.restoreSeconds.Some? then e.call.op.hints.restoreSeconds
               else LastRestoreSeconds(log)
  {
    assert (log + [e])[..|log|] == log;
  }

  /** The versioned fields a call writes. */
  lemma WriteFollows(r: Record, c: Call)
    requires r.initOwner.Some? ==> r.holder == r.initOwner
    requires Guard(r, c)
    ensures Write(r, c).holder == if c.op.AcquireInit? then Some(c.instance) else r.holder
    ensures Write(r, c).pointer == if c.op.Receipt? then Some(c.op.gen) else r.pointer
    ensures Write(r, c).nextDueAt
            == if c.op.Receipt? && c.op.hints.due.Some? then Some(c.op.hints.due.value.0) else r.nextDueAt
    ensures Write(r, c).nextDueJob
            == if c.op.Receipt? && c.op.hints.due.Some? then Some(c.op.hints.due.value.1) else r.nextDueJob
    ensures Write(r, c).restoreSeconds
            == if c.op.Receipt? && c.op.hints.restoreSeconds.Some? then c.op.hints.restoreSeconds else r.restoreSeconds
  {
  }

  lemma DeliverFollowsLog(s: System, c: Call, reply: bool)
    requires FollowsLog(s) && Owned(s) && Guard(s.rec, c)
    ensures FollowsLog(Applied(s, c, reply))
  {
    LastAfter(s.log, Wrote(c, c.op.Receipt? && Replays(s.rec, c.op), reply));
    WriteFollows(s.rec, c);
  }

  lemma DeliverTasks(s: System, c: Call, reply: bool)
    requires TasksOk(s)
    ensures TasksOk(Applied(s, c, reply))
  {
    WriteVersions(s.rec, c);
    var s' := Applied(s, c, reply);
    forall t | t in s'.tasks
      ensures TaskOk(s', t)
    {
      assert TaskOk(s, t);
    }
  }

  lemma DeliverCalls(s: System, c: Call, reply: bool)
    requires CallsOk(s) && c in s.calls
    ensures CallsOk(Applied(s, c, reply))
  {
  }

  lemma DeliverCatalogued(s: System, c: Call, reply: bool)
    requires Catalogued(s) && CallsOk(s) && c in s.calls && Guard(s.rec, c)
    ensures Catalogued(Applied(s, c, reply))
  {
  }

  lemma DeliverFenced(s: System, c: Call, reply: bool)
    requires FollowsLog(s) && CallsOk(s) && Owned(s) && c in s.calls && Guard(s.rec, c) && Fenced(s.log)
    ensures Fenced(Applied(s, c, reply).log)
  {
    Appended(s.log, Wrote(c, c.op.Receipt? && Replays(s.rec, c.op), reply));
  }

  lemma DeliverChained(s: System, c: Call, reply: bool)
    requires CallsOk(s) && Below(s) && c in s.calls && Guard(s.rec, c) && Chained(s.log)
    ensures Chained(Applied(s, c, reply).log) && Below(Applied(s, c, reply))
  {
  }

  lemma DeliverStops(s: System, c: Call, reply: bool)
    requires StopsBacked(s)
    ensures StopsBacked(Applied(s, c, reply))
  {
    Appended(s.log, Wrote(c, c.op.Receipt? && Replays(s.rec, c.op), reply));
  }

  lemma DeliverNext(s: System, c: Call, reply: bool)
    requires Inv(s) && c in s.calls && Guard(s.rec, c)
    ensures Inv(Applied(s, c, reply))
  {
    DeliverClocked(s, c, reply);
    DeliverOwned(s, c, reply);
    DeliverFollowsLog(s, c, reply);
    DeliverTasks(s, c, reply);
    DeliverCalls(s, c, reply);
    DeliverCatalogued(s, c, reply);
    DeliverFenced(s, c, reply);
    DeliverChained(s, c, reply);
    DeliverStops(s, c, reply);
  }

  // --------------------------------------------- a control-plane put lands

  /** A put that wins its compare-and-swap keeps every versioned field its operation does not set. */
  lemma LandRecord(s: System, put: Task)
    requires put.PutReady? && TaskOk(s, put) && put.read.version == s.rec.version
    ensures put.updated.pointer == s.rec.pointer && put.updated.holder == s.rec.holder
    ensures put.updated.nextDueAt == s.rec.nextDueAt && put.updated.nextDueJob == s.rec.nextDueJob
    ensures put.updated.restoreSeconds == s.rec.restoreSeconds
    ensures put.updated.version == s.rec.version + 1
    ensures put.kind.ForStart? || put.updated.session == s.rec.session
  {
  }

  lemma LandTasks(s: System, put: Task)
    requires TasksOk(s) && put in s.tasks && put.PutReady? && put.read.version == s.rec.version
    ensures TasksOk(Landed(s, put))
  {
    assert TaskOk(s, put);
    LandRecord(s, put);
    var s' := Landed(s, put);
    forall t | t in s'.tasks
      ensures TaskOk(s', t)
    {
      assert TaskOk(s, t);
    }
  }

  lemma LandRest(s: System, put: Task)
    requires Clocked(s) && Owned(s) && CallsOk(s) && Catalogued(s)
    requires put in s.tasks && put.PutReady? && TaskOk(s, put) && put.read.version == s.rec.version
    ensures Clocked(Landed(s, put)) && Owned(Landed(s, put))
    ensures CallsOk(Landed(s, put)) && Catalogued(Landed(s, put))
  {
    LandRecord(s, put);
  }

  lemma LandFollows(s: System, put: Task)
    requires FollowsLog(s) && Below(s)
    requires put.PutReady? && TaskOk(s, put) && put.read.version == s.rec.version
    ensures FollowsLog(Landed(s, put)) && Below(Landed(s, put))
  {
    LandRecord(s, put);
    LastAfter(s.log, EventOf(put));
  }

  lemma LandChain(log: seq<Event>, e: Event)
    requires Fenced(log) && Chained(log) && !e.Wrote?
    ensures Fenced(log + [e]) && Chained(log + [e])
  {
    Appended(log, e);
  }

  lemma LandStops(s: System, put: Task)
    requires StopsBacked(s) && FollowsLog(s)
    requires put.PutReady? && TaskOk(s, put) && put.read.version == s.rec.version
    ensures StopsBacked(Landed(s, put))
  {
    LandRecord(s, put);
    Appended(s.log, EventOf(put));
  }

  lemma LandNext(s: System, put: Task)
    requires Inv(s) && put in s.tasks && put.PutReady? && put.read.version == s.rec.version
    ensures Inv(Landed(s, put))
  {
    assert TaskOk(s, put);
    LandTasks(s, put);
    LandRest(s, put);
    LandFollows(s, put);
    LandChain(s.log, EventOf(put));
    LandStops(s, put);
  }

  // ------------------------------------------------------------- all steps

  lemma CreatedInv(s: System)
    requires Created(s)
    ensures Inv(s)
  {
  }

  lemma TickStep(s: System, seconds: nat)
    requires Inv(s)
    ensures Inv(Next(s, Tick(seconds)))
  {
    TickNext(s, seconds);
    assert Next(s, Tick(seconds)) == s.(now := s.now + seconds);
  }

  lemma BootStep(s: System, i: Instance)
    requires Inv(s)
    ensures Inv(Next(s, Boot(i)))
  {
    if i !in s.containers {
      ContainerNext(s, i, Container(None, false, 0));
    }
  }

  lemma RestoreStep(s: System, i: Instance)
    requires Inv(s)
    ensures Inv(Next(s, Restore(i)))
  {
    if i in s.containers && s.containers[i].ready.None? {
      RestoreNext(s, i, MaxOf(s.commits.Keys));
    }
  }

  lemma CommitStep(s: System, gen: nat, digest: Digest)
    requires Inv(s)
    ensures Inv(Next(s, CommitObject(gen, digest)))
  {
    if gen > 0 && gen !in s.commits {
      CommitNext(s, gen, digest);
    }
  }

  lemma EnrolStep(s: System, sealed: string)
    requires Inv(s)
    ensures Inv(Next(s, EnrolWake(sealed)))
  {
    EnrolNext(s, sealed);
  }

  lemma SendStep(s: System, op: Op, session: Session, i: Instance)
    requires Inv(s)
    ensures Inv(Next(s, Send(op, session, i)))
  {
    if CanSend(s, op, session, i) {
      SendNext(s, op, session, i);
    }
  }

  lemma DeliverStep(s: System, c: Call, reply: bool)
    requires Inv(s)
    ensures Inv(Next(s, Deliver(c, reply)))
  {
    if c in s.calls && Guard(s.rec, c) {
      DeliverNext(s, c, reply);
    }
  }

  lemma OpenStep(s: System)
    requires Inv(s)
    ensures Inv(Next(s, OpenStart))
  {
    TaskNext(s, StartOpened(s.rec.session));
  }

  lemma ReadStartStep(s: System, owner: Session)
    requires Inv(s)
    ensures Inv(Next(s, ReadStart(owner)))
  {
    if StartOpened(owner) in s.tasks {
      TaskNext(s, StartRead(ViewOf(s.rec), owner, s.now, |s.log|));
    }
  }

  lemma DecideStep(s: System, t: Task, rotated: Session, confirmed: bool)
    requires Inv(s)
    ensures Inv(Next(s, DecideTheStart(t, rotated, confirmed)))
  {
    if t in s.tasks && t.StartRead? && rotated !in s.used
       && DecideStart(t.view, t.owner, s.now, confirmed, rotated).Rotate? {
      DecideNext(s, t, rotated, confirmed);
    }
  }

  lemma CheckStopStep(s: System, token: Token)
    requires Inv(s)
    ensures Inv(Next(s, CheckStop(token)))
  {
    if StopAllowed(s, token) {
      CheckStopNext(s, token);
    }
  }

  lemma ReadStopStep(s: System, t: Task)
    requires Inv(s)
    ensures Inv(Next(s, ReadStop(t)))
  {
    if t in s.tasks && StopStillCurrent(s, t) {
      ReadStopNext(s, t);
    }
  }

  lemma ReadDeletionStep(s: System)
    requires Inv(s)
    ensures Inv(Next(s, ReadDeletion))
  {
    if s.rec.state == STOPPED {
      TaskNext(s, PutReady(ViewOf(s.rec), DeletionView(ViewOf(s.rec), s.now), ForDeletion, |s.log|));
    }
  }

  lemma LandStep(s: System, put: Task)
    requires Inv(s)
    ensures Inv(Next(s, LandPut(put)))
  {
    if put in s.tasks && put.PutReady? && put.read.version == s.rec.version {
      LandNext(s, put);
    }
  }

  /** Every step of the protocol keeps the invariant. */
  lemma InvNext(s: System, step: Step)
    requires Inv(s)
    ensures Inv(Next(s, step))
  {
    match step
    case Tick(seconds) => TickStep(s, seconds);
    case Boot(i) => BootStep(s, i);
    case Send(op, session, i) => SendStep(s, op, session, i);
    case Deliver(c, reply) => DeliverStep(s, c, reply);
    case Restore(i) => RestoreStep(s, i);
    case CommitObject(gen, digest) => CommitStep(s, gen, digest);
    case OpenStart => OpenStep(s);
    case ReadStart(owner) => ReadStartStep(s, owner);
    case DecideTheStart(t, rotated, confirmed) => DecideStep(s, t, rotated, confirmed);
    case CheckStop(token) => CheckStopStep(s, token);
    case ReadStop(t) => ReadStopStep(s, t);
    case ReadDeletion => ReadDeletionStep(s);
    case LandPut(put) => LandStep(s, put);
    case EnrolWake(sealed) => EnrolStep(s, sealed);
  }

  lemma {:induction false} InvRun(s: System, steps: seq<Step>)
    requires Inv(s)
    ensures Inv(Run(s, steps))
    decreases |steps|
  {
    if steps != [] {
      InvNext(s, steps[0]);
      InvRun(Next(s, steps[0]), steps[1..]);
    }
  }

  lemma ReachableInv(s: System)
    requires Reachable(s)
    ensures Inv(s)
  {
    var s0: System, steps: seq<Step> :| Created(s0) && Run(s0, steps) == s;
    CreatedInv(s0);
    InvRun(s0, steps);
  }
}
