/**
 The pace a holder must keep is exact, once it is ready and while it starts: one
 second slower in any of the sums, and there is a run from a just-ready or just-claimed
 state in which it never misses a beat and loses the sandbox all the same.
 */
module SandboxTightness {
  import opened Base
  import opened SandboxRecord
  import opened SandboxSystem
  import opened SandboxScenarios
  import opened SandboxLiveness
  import opened SandboxStart

  /** Whose hold is watched, and the pace it keeps: a ready holder's or a starting owner's. */
  datatype Watch =
    | Ready(me: Instance, session: Session, pace: Pace)
    | Starting(me: Instance, session: Session, startPace: StartPace)
  {
    function Beats(): nat { if Ready? then pace.beat else startPace.beat }
    function Lag(): nat { if Ready? then pace.lag else startPace.lag }
    function Read(): nat { if Ready? then pace.read else startPace.read }
  }

  /** The run keeps the pace. */
  ghost predicate Watched(w: Watch, s: System, steps: seq<Step>, last: int)
  {
    if w.Ready? then Attended(s, steps, w.me, last, w.pace) else Nursed(s, steps, w.me, last, w.startPace)
  }

  /** The hold lasts. */
  ghost predicate Lasts(w: Watch, s: System, steps: seq<Step>)
  {
    if w.Ready? then HeldThroughout(s, steps, w.me, w.session) else Undisturbed(s, steps, w.me, w.session)
  }

  /** Some run that keeps the pace loses the hold. */
  ghost predicate Losable(w: Watch, s: System, last: int)
  {
    exists steps: seq<Step> :: Watched(w, s, steps, last) && !Lasts(w, s, steps)
  }

  predicate Renewal(w: Watch, s: System, step: Step)
  {
    if w.Ready? then BeatsFor(s, step, w.me) else Renews(s, step, w.me)
  }

  /** The watch goes on through this step, at its pace. */
  predicate Paced(w: Watch, s: System, step: Step)
  {
    if w.Ready? then s.rec.state != STOPPED && KeepsPace(s, step, w.me, w.pace)
    else !Finishes(s, step, w.me) && KeepsStartPace(s, step, w.me, w.startPace)
  }

  predicate Breaks(w: Watch, s: System, step: Step)
  {
    if w.Ready? then Displaces(s, step) else Intrudes(s, step, w.me)
  }

  function LastAfter(w: Watch, s: System, step: Step, last: int): int
  {
    if Renewal(w, s, step) then s.now else last
  }

  /** The definitions, one step deep. */
  lemma OneStep(w: Watch, s: System, steps: seq<Step>, last: int)
    requires steps != [] && s.now - last <= w.Beats() && Paced(w, s, steps[0])
    requires Watched(w, Next(s, steps[0]), steps[1..], LastAfter(w, s, steps[0], last))
    requires Breaks(w, s, steps[0]) || !Lasts(w, Next(s, steps[0]), steps[1..])
    ensures Watched(w, s, steps, last) && !Lasts(w, s, steps)
  {
  }

  /** One paced step before a losable state. */
  lemma Before(w: Watch, s: System, step: Step, last: int)
    requires s.now - last <= w.Beats() && Paced(w, s, step)
    requires Losable(w, Next(s, step), LastAfter(w, s, step, last))
    ensures Losable(w, s, last)
  {
    var rest: seq<Step> :| Watched(w, Next(s, step), rest, LastAfter(w, s, step, last))
                           && !Lasts(w, Next(s, step), rest);
    var steps := [step] + rest;
    assert steps[0] == step && steps[1..] == rest;
    OneStep(w, s, steps, last);
  }

  /** The breaking step itself. */
  lemma Now(w: Watch, s: System, step: Step, last: int)
    requires s.now - last <= w.Beats() && Paced(w, s, step)
    requires Breaks(w, s, step) && !Renewal(w, s, step) && Next(s, step).now == s.now
    ensures Losable(w, s, last)
  {
    var steps := [step];
    assert steps[0] == step && steps[1..] == [];
    assert Watched(w, Next(s, step), [], last);
    OneStep(w, s, steps, last);
  }

  // ----------------------------------------------------------------- beating

  /** The holder is in place and can beat. */
  predicate Alive(w: Watch, s: System)
  {
    && w.me in s.containers && s.now > 0
    && s.rec.session == w.session && s.rec.leaseOwner == Some(w.session) && s.rec.holder == Some(w.me)
    && (w.Ready? ==>
          && s.containers[w.me].ready == Some(w.session) && s.rec.state == READY
          && s.rec.initOwner == None && s.rec.initExpires == None)
    && (w.Starting? ==>
          s.containers[w.me].ready == None && s.rec.state == RESTORING && s.rec.initOwner == Some(w.me))
  }

  function BeatOf(w: Watch, served: int): Op { if w.Ready? then HeartbeatLease(served) else HeartbeatInit(None) }

  function BeatAt(w: Watch, s: System, served: int): Call { Call(BeatOf(w, served), w.session, w.me, s.now) }

  function Sending(s: System, c: Call): System { s.(calls := s.calls + {c}) }

  /** The lease the watched beats renew. */
  function Until(w: Watch, r: Record): Option<int> { if w.Ready? then r.leaseExpires else r.initExpires }

  /** What beats leave alone. */
  predicate Apart(w: Watch, s: System, s': System)
  {
    && s'.tasks == s.tasks && s'.containers == s.containers && s.calls <= s'.calls && s'.used == s.used
    && s'.rec.version == s.rec.version && (w.Starting? ==> s'.rec.leaseExpires == s.rec.leaseExpires)
  }

  lemma SendsBeat(w: Watch, s: System, served: int)
    requires Alive(w, s) && served > 0
    ensures Next(s, Send(BeatOf(w, served), w.session, w.me)) == Sending(s, BeatAt(w, s, served))
  {
  }

  /** What a landed beat changes. */
  lemma LandsBeat(w: Watch, s: System, c: Call, served: int)
    requires Alive(w, s) && c in s.calls && c == Call(BeatOf(w, served), w.session, w.me, c.at)
    ensures Renewal(w, s, Deliver(c, false)) && Next(s, Deliver(c, false)) == Applied(s, c, false)
    ensures var s' := Applied(s, c, false);
            && Alive(w, s') && Apart(w, s, s') && s'.now == s.now && Until(w, s'.rec) == Some(c.at + 90)
            && (w.Ready? ==> s'.rec.lastServed == Some(Min(served, c.at)))
  {
  }

  lemma BeforeLanding(w: Watch, s: System, c: Call, served: int, last: int)
    requires Alive(w, s) && c in s.calls && c == Call(BeatOf(w, served), w.session, w.me, c.at)
    requires s.now - last <= w.Beats() && s.now - c.at <= w.Lag() && (w.Ready? ==> served >= c.at - w.pace.served)
    requires Losable(w, Applied(s, c, false), s.now)
    ensures Losable(w, s, last)
  {
    LandsBeat(w, s, c, served);
    Before(w, s, Deliver(c, false), last);
  }

  /** Send a beat that reports service just now, and land it at once. */
  ghost function Beat(w: Watch, s: System): System
  {
    Applied(Sending(s, BeatAt(w, s, s.now)), BeatAt(w, s, s.now), false)
  }

  lemma BeatFacts(w: Watch, s: System)
    requires Alive(w, s)
    ensures Alive(w, Beat(w, s)) && Apart(w, s, Beat(w, s)) && Beat(w, s).now == s.now
  {
    LandsBeat(w, Sending(s, BeatAt(w, s, s.now)), BeatAt(w, s, s.now), s.now);
  }

  lemma BeforeSending(w: Watch, s: System, served: int, last: int)
    requires Alive(w, s) && served > 0 && s.now - last <= w.Beats()
    requires Losable(w, Sending(s, BeatAt(w, s, served)), last)
    ensures Losable(w, s, last)
  {
    SendsBeat(w, s, served);
    Before(w, s, Send(BeatOf(w, served), w.session, w.me), last);
  }

  lemma BeforeBeat(w: Watch, s: System, last: int)
    requires Alive(w, s) && s.now - last <= w.Beats() && Losable(w, Beat(w, s), s.now)
    ensures Losable(w, s, last)
  {
    BeforeLanding(w, Sending(s, BeatAt(w, s, s.now)), BeatAt(w, s, s.now), s.now, last);
    BeforeSending(w, s, s.now, last);
  }

  lemma BeforeTick(w: Watch, s: System, seconds: nat, last: int)
    requires Alive(w, s) && s.now + seconds - last <= w.Beats()
    requires Losable(w, s.(now := s.now + seconds), last)
    ensures Losable(w, s, last)
  {
    assert Next(s, Tick(seconds)) == s.(now := s.now + seconds);
    Before(w, s, Tick(seconds), last);
  }

  /** One second later, with a beat. */
  ghost function Second(w: Watch, s: System): System { Beat(w, s.(now := s.now + 1)) }

  /** A beat every second for `n` seconds. */
  ghost function Coast(w: Watch, s: System, n: nat): System
    decreases n
  {
    if n == 0 then s else Coast(w, Second(w, s), n - 1)
  }

  lemma SecondFacts(w: Watch, s: System)
    requires Alive(w, s)
    ensures Alive(w, Second(w, s)) && Apart(w, s, Second(w, s)) && Second(w, s).now == s.now + 1
  {
    BeatFacts(w, s.(now := s.now + 1));
  }

  lemma {:induction false} CoastFacts(w: Watch, s: System, n: nat)
    requires Alive(w, s)
    ensures Alive(w, Coast(w, s, n)) && Apart(w, s, Coast(w, s, n)) && Coast(w, s, n).now == s.now + n
    decreases n
  {
    if n > 0 {
      SecondFacts(w, s);
      CoastFacts(w, Second(w, s), n - 1);
    }
  }

  lemma BeforeSecond(w: Watch, s: System)
    requires Alive(w, s) && w.Beats() >= 1 && Losable(w, Second(w, s), s.now + 1)
    ensures Losable(w, s, s.now)
  {
    BeforeBeat(w, s.(now := s.now + 1), s.now);
    BeforeTick(w, s, 1, s.now);
  }

  lemma {:induction false} BeforeCoast(w: Watch, s: System, n: nat)
    requires Alive(w, s) && w.Beats() >= 1 && Losable(w, Coast(w, s, n), s.now + n)
    ensures Losable(w, s, s.now)
    decreases n
  {
    if n > 0 {
      SecondFacts(w, s);
      BeforeCoast(w, Second(w, s), n - 1);
      BeforeSecond(w, s);
    }
  }

  /** A beat sent now and landing `lag` seconds late, while newer beats land on time. */
  ghost function LateBeat(w: Watch, s: System, served: int, lag: nat): System
  {
    Applied(Coast(w, Sending(s, BeatAt(w, s, served)), lag), BeatAt(w, s, served), false)
  }

  lemma LateBeatFacts(w: Watch, s: System, served: int, lag: nat)
    requires Alive(w, s) && 0 < served <= s.now
    ensures var e := LateBeat(w, s, served, lag);
            && Alive(w, e) && Apart(w, s, e) && e.now == s.now + lag && Until(w, e.rec) == Some(s.now + 90)
            && (w.Ready? ==> e.rec.lastServed == Some(served))
  {
    var sent := Sending(s, BeatAt(w, s, served));
    CoastFacts(w, sent, lag);
    LandsBeat(w, Coast(w, sent, lag), BeatAt(w, s, served), served);
  }

  lemma BeforeLateBeat(w: Watch, s: System, served: int, lag: nat)
    requires Alive(w, s) && 0 < served <= s.now && w.Beats() >= 1 && lag <= w.Lag()
    requires w.Ready? ==> s.now - served <= w.pace.served
    requires Losable(w, LateBeat(w, s, served, lag), s.now + lag)
    ensures Losable(w, s, s.now)
  {
    SentLate(w, Sending(s, BeatAt(w, s, served)), BeatAt(w, s, served), served, lag);
    BeforeSending(w, s, served, s.now);
  }

  lemma LandedLate(w: Watch, s: System, c: Call, served: int, now: int)
    requires Alive(w, s) && c in s.calls && c == Call(BeatOf(w, served), w.session, w.me, c.at) && now == s.now
    requires now - c.at <= w.Lag() && (w.Ready? ==> served >= c.at - w.pace.served)
    requires Losable(w, Applied(s, c, false), now)
    ensures Losable(w, s, now)
  {
    BeforeLanding(w, s, c, served, now);
  }

  lemma SentLate(w: Watch, s: System, c: Call, served: int, lag: nat)
    requires Alive(w, s) && c in s.calls && c == BeatAt(w, s, served) && w.Beats() >= 1 && lag <= w.Lag()
    requires w.Ready? ==> s.now - served <= w.pace.served
    requires Losable(w, Applied(Coast(w, s, lag), c, false), s.now + lag)
    ensures Losable(w, s, s.now)
  {
    CoastFacts(w, s, lag);
    LandedLate(w, Coast(w, s, lag), c, served, s.now + lag);
    BeforeCoast(w, s, lag);
  }

  function Later(s: System, seconds: nat): System { s.(now := s.now + seconds) }

  /** The same, and then no beat for a while. */
  ghost function Lull(w: Watch, s: System, served: int, lag: nat, beat: nat): System
  {
    Later(LateBeat(w, s, served, lag), beat)
  }

  lemma BeforeLull(w: Watch, s: System, served: int, lag: nat, beat: nat)
    requires Alive(w, s) && 0 < served <= s.now && w.Beats() >= 1 && lag <= w.Lag() && beat <= w.Beats()
    requires w.Ready? ==> s.now - served <= w.pace.served
    requires Losable(w, Lull(w, s, served, lag, beat), s.now + lag)
    ensures Losable(w, s, s.now)
  {
    LateBeatFacts(w, s, served, lag);
    BeforeTick(w, LateBeat(w, s, served, lag), beat, s.now + lag);
    BeforeLateBeat(w, s, served, lag);
  }

  // -------------------------------------------- a claim by somebody else applies

  /** More than a minute after the service last reported, another container's claim applies. */
  lemma ClaimDisplaces(w: Watch, s: System, other: Instance, last: int)
    requires w.Ready? && Alive(w, s) && other !in s.containers && s.now - last <= w.Beats()
    requires s.rec.lastServed.Some? && s.rec.lastServed.value < s.now - TAKEOVER_IDLE
    ensures Losable(w, s, last)
  {
    var booted := s.(containers := s.containers[other := Container(None, false, 0)]);
    BootedDisplaces(w, booted, other, last);
    assert Next(s, Boot(other)) == booted;
    Before(w, s, Boot(other), last);
  }

  lemma BootedDisplaces(w: Watch, s: System, other: Instance, last: int)
    requires w.Ready? && Alive(w, s) && s.now - last <= w.Beats()
    requires other in s.containers && other != w.me && s.containers[other] == Container(None, false, 0)
    requires s.rec.lastServed.Some? && s.rec.lastServed.value < s.now - TAKEOVER_IDLE
    ensures Losable(w, s, last)
  {
    var claim := Call(AcquireInit, w.session, other, s.now);
    var asked := Sending(s, claim);
    assert Next(s, Send(AcquireInit, w.session, other)) == asked;
    Now(w, asked, Deliver(claim, false), last);
    Before(w, s, Send(AcquireInit, w.session, other), last);
  }

  /** Beat interval, age of service and delay that add up to 61 seconds let another container in. */
  lemma IdleHolderIsDisplaced(w: Watch, s: System, other: Instance, beat: nat, served: nat, lag: nat)
    requires w.Ready? && Alive(w, s) && other !in s.containers && s.now > 61 && w.pace.beat >= 1
    requires beat <= w.pace.beat && served <= w.pace.served && lag <= w.pace.lag
    requires beat + served + lag == TAKEOVER_IDLE + 1
    ensures Losable(w, s, s.now)
  {
    LateBeatFacts(w, s, s.now - served, lag);
    ClaimDisplaces(w, Lull(w, s, s.now - served, lag, beat), other, s.now + lag);
    BeforeLull(w, s, s.now - served, lag, beat);
  }

  // ------------------------------------------------- a stale read rotates the session

  /** In the view of a start, nothing stands in the way from `now` on. */
  predicate RunOut(w: Watch, view: View, now: int)
  {
    && view.leaseOwner == Some(w.session) && view.state == (if w.Ready? then READY else RESTORING)
    && (view.leaseExpires.Some? ==> view.leaseExpires.value <= now)
    && (view.initExpires.Some? ==> view.initExpires.value <= now)
  }

  lemma StaleDecision(w: Watch, s: System, read: Task, rotated: Session)
    requires Alive(w, s) && rotated !in s.used && read in s.tasks && read.StartRead? && read.owner == w.session
    requires s.now - read.readAt <= w.Read() && read.view.version == s.rec.version && RunOut(w, read.view, s.now)
    ensures Losable(w, s, s.now)
  {
    var outcome := DecideStart(read.view, w.session, s.now, false, rotated);
    var put := PutReady(read.view, outcome.updated, ForStart, read.after);
    var decided := s.(tasks := s.tasks + {put});
    assert Next(s, DecideTheStart(read, rotated, false)) == decided;
    Now(w, decided, LandPut(put), s.now);
    Before(w, s, DecideTheStart(read, rotated, false), s.now);
  }

  function ReadNow(w: Watch, s: System): Task { StartRead(ViewOf(s.rec), w.session, s.now, |s.log|) }

  /** A start that read the record when its leases had `left` seconds and looks at the clock once they are over. */
  lemma StaleReadLoses(w: Watch, s: System, left: nat, rotated: Session)
    requires Alive(w, s) && rotated !in s.used && left <= w.Read() && w.Beats() >= 1
    requires RunOut(w, ViewOf(s.rec), s.now + left)
    ensures Losable(w, Beat(w, s.(tasks := s.tasks + {ReadNow(w, s)})), s.now)
  {
    var asked := s.(tasks := s.tasks + {ReadNow(w, s)});
    BeatFacts(w, asked);
    CoastThenDecide(w, Beat(w, asked), left, ReadNow(w, s), rotated);
  }

  lemma CoastThenDecide(w: Watch, s: System, left: nat, read: Task, rotated: Session)
    requires Alive(w, s) && rotated !in s.used && left <= w.Read() && w.Beats() >= 1
    requires read in s.tasks && read.StartRead? && read.owner == w.session && read.readAt == s.now
    requires read.view.version == s.rec.version && RunOut(w, read.view, s.now + left)
    ensures Losable(w, s, s.now)
  {
    CoastFacts(w, s, left);
    StaleDecision(w, Coast(w, s, left), read, rotated);
    BeforeCoast(w, s, left);
  }

  /** The read, with a beat that has just become due. */
  lemma LateReadLoses(w: Watch, s: System, last: int, left: nat, rotated: Session)
    requires Alive(w, s) && StartOpened(w.session) in s.tasks && rotated !in s.used
    requires left <= w.Read() && w.Beats() >= 1 && s.now - last <= w.Beats()
    requires RunOut(w, ViewOf(s.rec), s.now + left)
    ensures Losable(w, s, last)
  {
    StaleReadLoses(w, s, left, rotated);
    var looked := s.(tasks := s.tasks + {ReadNow(w, s)});
    BeforeBeat(w, looked, last);
    assert Next(s, ReadStart(w.session)) == looked;
    Before(w, s, ReadStart(w.session), last);
  }

  /** The start is open before the late beat, and reads the record after it. */
  lemma OpenedStartRotates(w: Watch, s: System, beat: nat, lag: nat, read: nat, rotated: Session)
    requires Alive(w, s) && rotated !in s.used && w.Beats() >= 1 && StartOpened(w.session) in s.tasks
    requires w.Starting? && s.rec.leaseExpires.Some? ==> s.rec.leaseExpires.value <= s.now + 90
    requires beat <= w.Beats() && lag <= w.Lag() && read <= w.Read() && beat + lag + read == 90
    ensures Losable(w, s, s.now)
  {
    LateBeatFacts(w, s, s.now, lag);
    LateReadLoses(w, Lull(w, s, s.now, lag, beat), s.now + lag, read, rotated);
    BeforeLull(w, s, s.now, lag, beat);
  }

  /** Beat interval, delay and read-to-clock delay that add up to 90 seconds let a start rotate the session. */
  lemma StaleReadRotates(w: Watch, s: System, beat: nat, lag: nat, read: nat, rotated: Session)
    requires Alive(w, s) && rotated !in s.used && w.Beats() >= 1
    requires w.Starting? && s.rec.leaseExpires.Some? ==> s.rec.leaseExpires.value <= s.now + 90
    requires beat <= w.Beats() && lag <= w.Lag() && read <= w.Read() && beat + lag + read == 90
    ensures Losable(w, s, s.now)
  {
    var asked := s.(tasks := s.tasks + {StartOpened(w.session)});
    OpenedStartRotates(w, asked, beat, lag, read, rotated);
    assert Next(s, OpenStart) == asked;
    Before(w, s, OpenStart, s.now);
  }

  // ------------------------------------------------------------- the exact conditions

  /** Every attended run from every just-ready reachable state keeps the holder. */
  ghost predicate AlwaysHeld(p: Pace)
  {
    forall s: System, call: Call, reply: bool, steps: seq<Step> |
      && Reachable(s) && Applies(s, Deliver(call, reply)) && call.op.MarkReady? && s.now - call.at <= p.lag
      && Attended(Next(s, Deliver(call, reply)), steps, call.instance, s.now, p) ::
      HeldThroughout(Next(s, Deliver(call, reply)), steps, call.instance, call.session)
  }

  lemma SlowHoldersAreDisplaced(s: System, p: Pace)
    requires Alive(Ready(A, SECOND, p), s) && B !in s.containers && THIRD !in s.used && s.now > 61
    requires p.beat >= 1 && !Prompt(p)
    ensures Losable(Ready(A, SECOND, p), s, s.now)
  {
    var w := Ready(A, SECOND, p);
    if p.beat + p.served + p.lag > TAKEOVER_IDLE {
      var beat := Min(p.beat, 61);
      var served := Min(p.served, 61 - beat);
      IdleHolderIsDisplaced(w, s, B, beat, served, 61 - beat - served);
    } else {
      var beat := Min(p.beat, 90);
      var lag := Min(p.lag, 90 - beat);
      StaleReadRotates(w, s, beat, lag, 90 - beat - lag, THIRD);
    }
  }

  /** For every beat interval of a second or more, a holder is safe in every run if and only if its pace is prompt. */
  lemma PromptIsExact(p: Pace)
    requires p.beat >= 1
    ensures Prompt(p) <==> AlwaysHeld(p)
  {
    if Prompt(p) {
      forall s: System, call: Call, reply: bool, steps: seq<Step> |
        && Reachable(s) && Applies(s, Deliver(call, reply)) && call.op.MarkReady? && s.now - call.at <= p.lag
        && Attended(Next(s, Deliver(call, reply)), steps, call.instance, s.now, p)
        ensures HeldThroughout(Next(s, Deliver(call, reply)), steps, call.instance, call.session)
      {
        ReadyHolderKeepsSandbox(s, call, reply, steps, p);
      }
    } else {
      NotAlwaysHeld(p);
    }
  }

  lemma NotAlwaysHeld(p: Pace)
    requires p.beat >= 1 && !Prompt(p)
    ensures !AlwaysHeld(p)
  {
    var s, call := AboutToBeReady();
    var ready := Applied(s, call, true);
    assert Next(s, Deliver(call, true)) == ready;
    SlowHoldersAreDisplaced(ready, p);
    var steps: seq<Step> :| Watched(Ready(A, SECOND, p), ready, steps, s.now)
                            && !Lasts(Ready(A, SECOND, p), ready, steps);
    assert Attended(ready, steps, A, s.now, p) && !HeldThroughout(ready, steps, A, SECOND);
  }

  /** Every nursed run from every just-claimed reachable state leaves the start undisturbed. */
  ghost predicate AlwaysUndisturbed(p: StartPace)
  {
    forall s: System, call: Call, reply: bool, steps: seq<Step> |
      && Reachable(s) && Applies(s, Deliver(call, reply)) && call.op.AcquireInit? && s.now - call.at <= p.lag
      && Nursed(Next(s, Deliver(call, reply)), steps, call.instance, s.now, p) ::
      Undisturbed(Next(s, Deliver(call, reply)), steps, call.instance, call.session)
  }

  /** For every beat interval of a second or more, a start is safe in every run if and only if its pace is prompt. */
  lemma PromptStartIsExact(p: StartPace)
    requires p.beat >= 1
    ensures PromptStart(p) <==> AlwaysUndisturbed(p)
  {
    if PromptStart(p) {
      forall s: System, call: Call, reply: bool, steps: seq<Step> |
        && Reachable(s) && Applies(s, Deliver(call, reply)) && call.op.AcquireInit? && s.now - call.at <= p.lag
        && Nursed(Next(s, Deliver(call, reply)), steps, call.instance, s.now, p)
        ensures Undisturbed(Next(s, Deliver(call, reply)), steps, call.instance, call.session)
      {
        NursedStartIsUndisturbed(s, call, reply, steps, p);
      }
    } else {
      var s, call := AboutToClaim();
      var claimed := Applied(s, call, true);
      assert Next(s, Deliver(call, true)) == claimed;
      var beat := Min(p.beat, 90);
      var lag := Min(p.lag, 90 - beat);
      StaleReadRotates(Starting(A, SECOND, p), claimed, beat, lag, 90 - beat - lag, THIRD);
      var steps: seq<Step> :| Watched(Starting(A, SECOND, p), claimed, steps, s.now)
                              && !Lasts(Starting(A, SECOND, p), claimed, steps);
      assert Nursed(claimed, steps, A, s.now, p) && !Undisturbed(claimed, steps, A, SECOND);
    }
  }
}
