/**
 The transition system around one sandbox record: broker calls that are
 authorized and land later, control-plane reads that are put back later, any
 number of containers, write-once S3 commits, and the receipt catalog.

 Nothing in flight is ever withdrawn: an authorized call or a prepared put may
 land late, repeatedly, or never, and in any order.
 */
module SandboxSystem {
  import opened Base
  import opened SandboxRecord

  /** What a container remembers: the session it became ready under and the generation it descends from. */
  datatype Container = Container(ready: Option<Session>, restored: bool, base: nat)

  /** A signed checkpoint receipt. */
  datatype Token = Token(session: Session, gen: nat, digest: Digest)

  datatype PutKind =
    | ForStart
    | ForStop(token: Token, seen: nat)
    | ForDeletion

  /**
   Control-plane work between two accesses of the record. `seen` is the log length at the
   stop check, `after` the log length at the read that a put goes back to.
   */
  datatype Task =
    | StartOpened(owner: Session)
    | StartRead(view: View, owner: Session, readAt: int, after: nat)
    | StopChecked(version: nat, leaseOwner: Option<Session>, token: Token, seen: nat)
    | PutReady(read: View, updated: View, kind: PutKind, after: nat)

  /** What happened, in order: every write of the record, and what each container restored. */
  datatype Event =
    | Wrote(call: Call, replay: bool, reply: bool)
    | Rotated(session: Session, after: nat)
    | Stopped(token: Token, seen: nat, after: nat)
    | DeletionAsked(after: nat)
    | Enrolled(sealed: string)
    | Restored(instance: Instance, newest: nat)

  datatype System = System(
    now: int,
    rec: Record,
    catalog: map<nat, Digest>,
    commits: map<nat, Digest>,
    tokens: set<Token>,
    calls: set<Call>,
    tasks: set<Task>,
    containers: map<Instance, Container>,
    used: set<Session>,
    log: seq<Event>)

  datatype Step =
    | Tick(seconds: nat)
    | Boot(instance: Instance)
    | Send(op: Op, session: Session, instance: Instance)
    | Deliver(call: Call, reply: bool)
    | Restore(instance: Instance)
    | CommitObject(gen: nat, digest: Digest)
    | OpenStart
    | ReadStart(owner: Session)
    | DecideTheStart(task: Task, rotated: Session, confirmedInactive: bool)
    | CheckStop(token: Token)
    | ReadStop(task: Task)
    | ReadDeletion
    | LandPut(task: Task)
    | EnrolWake(sealed: string)

  /** A newly created record: stopped, no lease, no checkpoint, no holder. */
  predicate Created(s: System)
  {
    && s.rec == Record(s.rec.session, STOPPED, 0, None, None, None, None, None, None, None, None,
                       None, None, None, None, None, None, None, s.now)
    && s.catalog == map[] && s.commits == map[] && s.tokens == {} && s.calls == {} && s.tasks == {}
    && s.containers == map[] && s.used == {s.rec.session} && s.log == []
  }

  /** Which calls a current runtime makes in which phase of its life. */
  predicate RuntimeSends(c: Container, op: Op, session: Session)
  {
    match op
    case AcquireInit => c.ready.None?
    case HeartbeatInit(_) => c.ready.None?
    case MarkReady(_) => c.ready.None? && c.restored
    case MarkError => true
    case HeartbeatLease(_) => c.ready == Some(session)
    case HealReady => c.ready == Some(session)
    case Receipt(_, base, _, _, _) => c.ready == Some(session) && base == c.base
  }

  /** A receipt names a commit that exists with the digest it claims. */
  predicate NamesCommit(commits: map<nat, Digest>, op: Op)
  {
    op.Receipt? ==> op.gen in commits && commits[op.gen] == op.digest
  }

  predicate CanSend(s: System, op: Op, session: Session, instance: Instance)
  {
    && instance in s.containers
    && RuntimeSends(s.containers[instance], op, session)
    && WellFormedOp(op)
    && Authorized(s.rec, session, s.now)
    && NamesCommit(s.commits, op)
  }

  /** What the calling container learns from an applied call whose reply arrives. */
  function Learn(c: Container, call: Call): Container
  {
    match call.op
    case MarkReady(_) => c.(ready := Some(call.session))
    case Receipt(gen, _, _, _, _) => c.(base := gen)
    case _ => c
  }

  function Applied(s: System, call: Call, reply: bool): System
  {
    var op := call.op;
    var containers := if reply && call.instance in s.containers
                      then s.containers[call.instance := Learn(s.containers[call.instance], call)]
                      else s.containers;
    s.(rec := Write(s.rec, call),
       catalog := if op.Receipt? then s.catalog[op.gen := op.digest] else s.catalog,
       tokens := if op.Receipt? then s.tokens + {Token(call.session, op.gen, op.digest)} else s.tokens,
       containers := containers,
       log := s.log + [Wrote(call, op.Receipt? && Replays(s.rec, op), reply)])
  }

  /** `_stop`: the presented receipt is current, committed and catalogued. */
  predicate StopAllowed(s: System, token: Token)
  {
    && token in s.tokens
    && token.session == s.rec.session
    && s.rec.state == STOPPING
    && s.rec.pointer == Some(token.gen)
    && token.gen in s.catalog && s.catalog[token.gen] == token.digest
  }

  predicate StopStillCurrent(s: System, task: Task)
  {
    && task.StopChecked?
    && s.rec.version == task.version && s.rec.leaseOwner == task.leaseOwner
    && s.rec.state == STOPPING
  }

  function EventOf(put: Task): Event
    requires put.PutReady?
  {
    match put.kind
    case ForStart => Rotated(put.updated.session, put.after)
    case ForStop(token, seen) => Stopped(token, seen, put.after)
    case ForDeletion => DeletionAsked(put.after)
  }

  function Landed(s: System, put: Task): System
    requires put.PutReady?
  {
    s.(rec := ItemOf(put.updated), used := s.used + {put.updated.session}, log := s.log + [EventOf(put)])
  }

  /** A container has restored, or tried to restore, the newest commit. */
  function RestoredBy(s: System, instance: Instance, newest: nat): System
  {
    s.(containers := s.containers[instance := Container(None, true, newest)],
       log := s.log + [Restored(instance, newest)])
  }

  /** The targeted write of the sealed wake subject, which does not move the version. */
  function EnrolledAs(s: System, sealed: string): System
  {
    s.(rec := s.rec.(wakeSubject := Some(sealed)), log := s.log + [Enrolled(sealed)])
  }

  /** One step; a step that is not enabled changes nothing. */
  ghost function Next(s: System, step: Step): System
  {
    match step
    case Tick(seconds) => s.(now := s.now + seconds)
    case Boot(instance) =>
      if instance in s.containers then s
      else s.(containers := s.containers[instance := Container(None, false, 0)])
    case Send(op, session, instance) =>
      if CanSend(s, op, session, instance)
      then s.(calls := s.calls + {Call(op, session, instance, s.now)})
      else s
    case Deliver(call, reply) =>
      if call in s.calls && Guard(s.rec, call) then Applied(s, call, reply) else s
    case Restore(instance) =>
      if instance in s.containers && s.containers[instance].ready.None?
      then RestoredBy(s, instance, MaxOf(s.commits.Keys))
      else s
    case CommitObject(gen, digest) =>
      if gen > 0 && gen !in s.commits then s.(commits := s.commits[gen := digest]) else s
    case OpenStart => s.(tasks := s.tasks + {StartOpened(s.rec.session)})
    case ReadStart(owner) =>
      if StartOpened(owner) in s.tasks
      then s.(tasks := s.tasks + {StartRead(ViewOf(s.rec), owner, s.now, |s.log|)})
      else s
    case DecideTheStart(task, rotated, confirmed) =>
      if task in s.tasks && task.StartRead? && rotated !in s.used then
        var outcome := DecideStart(task.view, task.owner, s.now, confirmed, rotated);
        if outcome.Rotate?
        then s.(tasks := s.tasks + {PutReady(task.view, outcome.updated, ForStart, task.after)})
        else s
      else s
    case CheckStop(token) =>
      if StopAllowed(s, token)
      then s.(tasks := s.tasks + {StopChecked(s.rec.version, s.rec.leaseOwner, token, |s.log|)})
      else s
    case ReadStop(task) =>
      if task in s.tasks && StopStillCurrent(s, task) then
        var view := ViewOf(s.rec);
        var put := PutReady(view, StoppedView(view, s.now), ForStop(task.token, task.seen), |s.log|);
        s.(tasks := s.tasks + {put})
      else s
    case ReadDeletion =>
      if s.rec.state == STOPPED then
        var view := ViewOf(s.rec);
        s.(tasks := s.tasks + {PutReady(view, DeletionView(view, s.now), ForDeletion, |s.log|)})
      else s
    case LandPut(task) =>
      if task in s.tasks && task.PutReady? && task.read.version == s.rec.version then Landed(s, task) else s
    case EnrolWake(sealed) => EnrolledAs(s, sealed)
  }

  /** The state after a whole run. */
  ghost function Run(s: System, steps: seq<Step>): System
    decreases |steps|
  {
    if steps == [] then s else Run(Next(s, steps[0]), steps[1..])
  }

  ghost predicate Reachable(s: System)
  {
    exists s0: System, steps: seq<Step> :: Created(s0) && Run(s0, steps) == s
  }
}
