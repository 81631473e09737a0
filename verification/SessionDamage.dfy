/**
 * Whole runs of the recording side: publishers, the processor, the STA queue,
 * storage failures and clearings in any interleaving over one damage tracker.
 * A session is reported incomplete exactly when one of its events or its store
 * has failed since it was last cleared, or when the tracker ran out of room.
 */
module SessionDamage {
  import opened Wrappers
  import opened IngressQueues
  import IngressHistory
  import opened Ingress
  import opened Monitoring
  import opened Recording
  import opened Processor
  import StaQueue

  datatype Settings = Settings(limits: Limits, staCapacity: nat, staSession: Id, maxSessions: nat, maxReasons: nat)
  {
    predicate Valid() {
      limits.Valid() && maxReasons > 0
    }
  }

  datatype Call =
    | Publish(event: Event)
    | ProcessOne(behaviour: Behaviour)
    | StaCall(op: StaQueue.StaOp)
    | StorageFails(session: Id)
    | ClearSession(session: Id)

  /** The queues, the STA queue, the attempts of the processor and the operations on the tracker. */
  datatype System = System(ingress: IngressHistory.World, sta: StaQueue.StaWorld, attempts: seq<Attempt>, damage: seq<DamageOp>)

  /** The attempt a processing call makes: none when halted or when nothing waits. */
  function AttemptOf(c: Settings, s: System, b: Behaviour): seq<Attempt>
    requires s.ingress.queues.Valid(c.limits)
  {
    var r := ProcessAll(s.attempts);
    if r.halted then [] else AttemptsFor(Pop(c.limits, s.ingress.queues).1, r.last, b)
  }

  /** What a call does to the tracker. */
  function Damages(c: Settings, s: System, call: Call): seq<DamageOp>
    requires s.ingress.queues.Valid(c.limits)
  {
    match call
    case Publish(e) => if Admit(c.limits, s.ingress.queues, e).decision.Dropped? then OverflowDamage(e) else []
    case ProcessOne(b) =>
      var attempt := AttemptOf(c, s, b);
      if attempt == [] then [] else FailureDamage(ProcessAll(s.attempts), attempt[0])
    case StaCall(op) => if op.Offer? && |s.sta.sta.queue| >= c.staCapacity then [StaQueue.OverflowMark(c.staSession)] else []
    case StorageFails(session) => [MarkIncomplete(session, STORAGE_FAILURE)]
    case ClearSession(session) => [Clear(session)]
  }

  function After(c: Settings, s: System, call: Call): (next: System)
    requires s.ingress.queues.Valid(c.limits)
    ensures next.ingress.queues.Valid(c.limits)
  {
    var damaged := s.(damage := s.damage + Damages(c, s, call));
    match call
    case Publish(e) => damaged.(ingress := IngressHistory.Tell(c.limits, s.ingress, IngressHistory.Offer(e)))
    case ProcessOne(b) =>
      if ProcessAll(s.attempts).halted then damaged
      else damaged.(ingress := IngressHistory.Tell(c.limits, s.ingress, IngressHistory.Take), attempts := s.attempts + AttemptOf(c, s, b))
    case StaCall(op) => damaged.(sta := StaQueue.StaStep(c.staCapacity, s.sta, op))
    case _ => damaged
  }

  function Run(c: Settings, calls: seq<Call>): (s: System)
    requires c.Valid()
    ensures s.ingress.queues.Valid(c.limits)
  {
    if calls == [] then System(IngressHistory.Start(), StaQueue.StaWorld(StaQueue.Sta([], None), [], [], []), [], [])
    else After(c, Run(c, calls[..|calls| - 1]), calls[|calls| - 1])
  }

  /** A call that loses or spoils something of the session: a drop, a failed attempt, an STA overflow, a storage failure. */
  predicate Hurts(c: Settings, s: System, call: Call, session: Id)
    requires s.ingress.queues.Valid(c.limits)
  {
    match call
    case Publish(e) => e.session == session && Admit(c.limits, s.ingress.queues, e).decision.Dropped?
    case ProcessOne(b) =>
      var r, popped := ProcessAll(s.attempts), Pop(c.limits, s.ingress.queues).1;
      && !r.halted && popped.Some? && popped.value.session == session
      && var a := b.AttemptAt(popped.value, NextSequence(r.last, session)); !Delivers(r.last, a) || a.observerFails
    case StaCall(op) => op.Offer? && c.staSession == session && |s.sta.sta.queue| >= c.staCapacity
    case StorageFails(failed) => failed == session
    case ClearSession(_) => false
  }

  /** The session was hurt after it was last cleared. */
  predicate HurtSinceClear(c: Settings, calls: seq<Call>, session: Id)
    requires c.Valid()
  {
    if calls == [] then false
    else
      var n := |calls| - 1;
      if calls[n] == ClearSession(session) then false
      else Hurts(c, Run(c, calls[..n]), calls[n], session) || HurtSinceClear(c, calls[..n], session)
  }

  /** Operations that all damage one session, none of them a clearing. */
  predicate AllDamage(more: seq<DamageOp>, session: Id) {
    forall i :: 0 <= i < |more| ==> !more[i].Clear? && more[i].session == session
  }

  lemma {:induction false} DamagedFurther(ops: seq<DamageOp>, more: seq<DamageOp>, hurt: Id, session: Id)
    requires AllDamage(more, hurt)
    ensures DamagedSinceClear(ops + more, session) <==> (more != [] && hurt == session) || DamagedSinceClear(ops, session)
    decreases |more|
  {
    if more == [] {
      assert ops + more == ops;
    } else {
      var n := |more| - 1;
      assert (ops + more)[..|ops + more| - 1] == ops + more[..n];
      DamagedFurther(ops, more[..n], hurt, session);
    }
  }

  lemma OneCall(c: Settings, s: System, call: Call, session: Id)
    requires c.Valid() && s.ingress.queues.Valid(c.limits)
    ensures DamagedSinceClear(s.damage + Damages(c, s, call), session)
            <==> call != ClearSession(session) && (Hurts(c, s, call, session) || DamagedSinceClear(s.damage, session))
  {
    var more := Damages(c, s, call);
    match call
    case Publish(e) => DamagedFurther(s.damage, more, e.session, session);
    case ProcessOne(b) =>
      var popped := Pop(c.limits, s.ingress.queues).1;
      DamagedFurther(s.damage, more, if popped.Some? then popped.value.session else session, session);
    case StaCall(_) => DamagedFurther(s.damage, more, c.staSession, session);
    case StorageFails(failed) => DamagedFurther(s.damage, more, failed, session);
    case ClearSession(cleared) =>
      assert (s.damage + more)[..|s.damage|] == s.damage;
  }

  lemma {:induction false} DamagedMeansHurt(c: Settings, calls: seq<Call>, session: Id)
    requires c.Valid()
    ensures DamagedSinceClear(Run(c, calls).damage, session) <==> HurtSinceClear(c, calls, session)
  {
    if calls != [] {
      var n := |calls| - 1;
      DamagedMeansHurt(c, calls[..n], session);
      OneCall(c, Run(c, calls[..n]), calls[n], session);
    }
  }

  /** The status the tracker reports for a session at the end of a run. */
  function StatusAfter(c: Settings, calls: seq<Call>, session: Id, requested: string): string
    requires c.Valid()
  {
    AfterDamage(DamageReport(map[], false), c.maxSessions, c.maxReasons, Run(c, calls).damage).TerminalStatus(session, requested)
  }

  /** Over all interleavings: incomplete if and only if hurt since the last clearing, or the tracker ran out of room. */
  lemma IncompleteIffHurt(c: Settings, calls: seq<Call>, session: Id, requested: string)
    requires c.Valid()
    ensures StatusAfter(c, calls, session, requested)
            == if HurtSinceClear(c, calls, session) || RanOutOfRoom(c.maxSessions, c.maxReasons, Run(c, calls).damage)
               then "incomplete" else requested
  {
    IncompleteExactly(c.maxSessions, c.maxReasons, Run(c, calls).damage, session);
    DamagedMeansHurt(c, calls, session);
  }

  /** Any drop, failed attempt, STA overflow or storage failure leaves its session incomplete for the rest of the run unless it is cleared. */
  lemma FailureSticks(c: Settings, calls: seq<Call>, i: nat, session: Id, requested: string)
    requires c.Valid() && i < |calls| && HurtAt(c, calls, i, session)
    requires forall j :: i < j < |calls| ==> calls[j] != ClearSession(session)
    ensures StatusAfter(c, calls, session, requested) == "incomplete"
  {
    HurtIsKept(c, calls, i, session);
    IncompleteExactly(c.maxSessions, c.maxReasons, Run(c, calls).damage, session);
    DamagedMeansHurt(c, calls, session);
  }

  lemma {:induction false} HurtIsKept(c: Settings, calls: seq<Call>, i: nat, session: Id)
    requires c.Valid() && i < |calls| && HurtAt(c, calls, i, session)
    requires forall j :: i < j < |calls| ==> calls[j] != ClearSession(session)
    ensures HurtSinceClear(c, calls, session)
  {
    var n := |calls| - 1;
    if i < n {
      HurtEarlier(c, calls, n, i, session);
      HurtIsKept(c, calls[..n], i, session);
      StillHurt(c, calls, session);
    } else {
      JustHurt(c, calls, session);
    }
  }

  lemma {:induction false} StillHurt(c: Settings, calls: seq<Call>, session: Id)
    requires c.Valid() && calls != [] && calls[|calls| - 1] != ClearSession(session)
    requires HurtSinceClear(c, calls[..|calls| - 1], session)
    ensures HurtSinceClear(c, calls, session)
  {
  }

  lemma {:induction false} JustHurt(c: Settings, calls: seq<Call>, session: Id)
    requires c.Valid() && calls != [] && HurtAt(c, calls, |calls| - 1, session)
    ensures HurtSinceClear(c, calls, session)
  {
  }

  predicate HurtAt(c: Settings, calls: seq<Call>, i: nat, session: Id)
    requires c.Valid() && i < |calls|
  {
    Hurts(c, Run(c, calls[..i]), calls[i], session)
  }

  lemma HurtEarlier(c: Settings, calls: seq<Call>, n: nat, i: nat, session: Id)
    requires c.Valid() && i < n <= |calls|
    ensures HurtAt(c, calls[..n], i, session) <==> HurtAt(c, calls, i, session)
  {
    assert calls[..n][..i] == calls[..i];
  }
}
