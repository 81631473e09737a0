/**
 * `BoundedStaQuoteQueue` of tx_trade/market_data/ingress.py: a bounded queue
 * with one overflow slot.  A notification is lost only when both are full, and
 * then shutdown has been requested.
 */
module StaQueue {
  import opened Wrappers
  import opened Monitoring

  type Notification = string

  datatype Sta = Sta(queue: seq<Notification>, slot: Option<Notification>)

  datatype StaOp = Offer(notification: Notification) | Take | TakeOverflow

  datatype StaDecision = StaAccepted | StaOverflow

  /** The queue and what has become of every notification offered so far. */
  datatype StaWorld = StaWorld(sta: Sta, taken: seq<Notification>, spilled: seq<Notification>, lost: seq<Notification>)

  function OptionSeq<T>(o: Option<T>): seq<T> {
    if o.Some? then [o.value] else []
  }

  function StaStep(capacity: nat, w: StaWorld, op: StaOp): StaWorld {
    match op
    case Offer(n) =>
      if |w.sta.queue| < capacity then w.(sta := w.sta.(queue := w.sta.queue + [n]))
      else if w.sta.slot.None? then w.(sta := w.sta.(slot := Some(n)))
      else w.(lost := w.lost + [n])
    case Take =>
      if w.sta.queue == [] then w
      else w.(sta := w.sta.(queue := w.sta.queue[1..]), taken := w.taken + [w.sta.queue[0]])
    case TakeOverflow => w.(sta := w.sta.(slot := None), spilled := w.spilled + OptionSeq(w.sta.slot))
  }

  function StaRun(capacity: nat, ops: seq<StaOp>): StaWorld {
    if ops == [] then StaWorld(Sta([], None), [], [], [])
    else StaStep(capacity, StaRun(capacity, ops[..|ops| - 1]), ops[|ops| - 1])
  }

  /** The notifications offered while the queue had room, and while it had not. */
  function OfferedTo(capacity: nat, ops: seq<StaOp>, room: bool): seq<Notification> {
    if ops == [] then []
    else
      var n := |ops| - 1;
      OfferedTo(capacity, ops[..n], room) +
      if ops[n].Offer? && (|StaRun(capacity, ops[..n]).sta.queue| < capacity) == room then [ops[n].notification] else []
  }

  /** Given what was offered with room and without, everything is somewhere. */
  ghost predicate Accounted(capacity: nat, w: StaWorld, roomy: seq<Notification>, crowded: seq<Notification>) {
    && roomy == w.taken + w.sta.queue
    && multiset(crowded) == multiset(w.spilled) + multiset(OptionSeq(w.sta.slot)) + multiset(w.lost)
    && |w.sta.queue| <= capacity
  }

  lemma OfferAccounted(capacity: nat, w: StaWorld, n: Notification, roomy: seq<Notification>, crowded: seq<Notification>)
    requires Accounted(capacity, w, roomy, crowded)
    ensures if |w.sta.queue| < capacity then Accounted(capacity, StaStep(capacity, w, Offer(n)), roomy + [n], crowded)
            else Accounted(capacity, StaStep(capacity, w, Offer(n)), roomy, crowded + [n])
  {
    assert w.taken + (w.sta.queue + [n]) == (w.taken + w.sta.queue) + [n];
  }

  lemma TakeAccounted(capacity: nat, w: StaWorld, op: StaOp, roomy: seq<Notification>, crowded: seq<Notification>)
    requires Accounted(capacity, w, roomy, crowded) && !op.Offer?
    ensures Accounted(capacity, StaStep(capacity, w, op), roomy, crowded)
  {
    if op.Take? && w.sta.queue != [] {
      assert (w.taken + [w.sta.queue[0]]) + w.sta.queue[1..] == w.taken + w.sta.queue;
    }
  }

  /** Over all runs no notification disappears: first in, first out, then the slot, and what is lost is known. */
  lemma {:induction false} NothingDisappears(capacity: nat, ops: seq<StaOp>)
    ensures Accounted(capacity, StaRun(capacity, ops), OfferedTo(capacity, ops, true), OfferedTo(capacity, ops, false))
  {
    if ops != [] {
      var n := |ops| - 1;
      NothingDisappears(capacity, ops[..n]);
      var w, roomy, crowded := StaRun(capacity, ops[..n]), OfferedTo(capacity, ops[..n], true), OfferedTo(capacity, ops[..n], false);
      if ops[n].Offer? {
        OfferAccounted(capacity, w, ops[n].notification, roomy, crowded);
      } else {
        TakeAccounted(capacity, w, ops[n], roomy, crowded);
      }
      assert roomy + [] == roomy && crowded + [] == crowded;
    }
  }

  /**
   * A notification is lost exactly when the queue is full and the slot is taken;
   * with the queue full and the slot free it waits in the slot, and otherwise at
   * the end of the queue.
   */
  lemma OfferFate(capacity: nat, ops: seq<StaOp>, n: Notification)
    ensures var before, after := StaRun(capacity, ops), StaRun(capacity, ops + [Offer(n)]);
            var full, taken := |before.sta.queue| == capacity, before.sta.slot.Some?;
            && (full && taken <==> after.lost == before.lost + [n])
            && (full && !taken <==> after.sta.slot != before.sta.slot)
            && (full && !taken ==> after.sta.slot == Some(n))
            && (!full <==> after.sta.queue == before.sta.queue + [n])
            && after.taken == before.taken && after.spilled == before.spilled
  {
    NothingDisappears(capacity, ops);
    StaRunAppend(capacity, ops, Offer(n));
  }

  /** The slot gives back what was put in it, once. */
  lemma SlotGivesBack(capacity: nat, ops: seq<StaOp>)
    ensures var before, after := StaRun(capacity, ops), StaRun(capacity, ops + [TakeOverflow]);
            && after.sta.slot.None? && after.sta.queue == before.sta.queue && after.lost == before.lost
            && (before.sta.slot.Some? ==> after.spilled == before.spilled + [before.sta.slot.value])
  {
    StaRunAppend(capacity, ops, TakeOverflow);
  }

  lemma StaRunAppend(capacity: nat, ops: seq<StaOp>, op: StaOp)
    ensures StaRun(capacity, ops + [op]) == StaStep(capacity, StaRun(capacity, ops), op)
  {
    assert (ops + [op])[..|ops|] == ops;
  }

  const OVERFLOW_REASON: Reason := "sta_quote_ingress_overflow"

  /** The damage one overflow does to the session of the queue. */
  function OverflowMark(session: Id): (mark: DamageOp)
    ensures mark == MarkIncomplete(session, "sta_quote_ingress_overflow")
  {
    MarkIncomplete(session, OVERFLOW_REASON)
  }

  /** The marks that a run calls for: one for every notification offered without room. */
  function StaMarks(session: Id, capacity: nat, ops: seq<StaOp>): seq<DamageOp> {
    seq(|OfferedTo(capacity, ops, false)|, i => OverflowMark(session))
  }

  lemma StaMarksNext(session: Id, capacity: nat, ops: seq<StaOp>, op: StaOp)
    ensures StaMarks(session, capacity, ops + [op])
            == StaMarks(session, capacity, ops)
               + if op.Offer? && |StaRun(capacity, ops).sta.queue| >= capacity then [OverflowMark(session)] else []
  {
    assert (ops + [op])[..|ops|] == ops;
  }

  const SLOT_EXHAUSTED: Reason := "sta_quote_overflow_slot_exhausted"

  /** The handling of an overflow, step by step. */
  function Handled(a: Alarm, session: Id, fatal: bool, room: bool): Alarm {
    var noted := Noted(Worsened(a, Degraded, OVERFLOW_REASON), OverflowMark(session), room);
    var asked := if room then noted else Asked(noted, NO_ROOM);
    if fatal then Asked(Worsened(asked, Failed, SLOT_EXHAUSTED), SLOT_EXHAUSTED) else asked
  }

  /**
   * An overflow degrades health and marks the session.  Health fails and shutdown
   * is asked for when the mark finds no room and, after that, when a notification
   * is lost.
   */
  lemma HandledMeans(a: Alarm, session: Id, fatal: bool, room: bool)
    ensures var after := Handled(a, session, fatal, room);
            var causes := (if room then [] else ["session_impact_capacity_exhausted"])
                          + (if fatal then ["sta_quote_overflow_slot_exhausted"] else []);
            && after.damage == a.damage + [MarkIncomplete(session, "sta_quote_ingress_overflow")]
            && after.told == a.told + ["sta_quote_ingress_overflow"] + causes
            && after.health == (if causes != [] || a.health == Failed then Failed else Degraded)
            && after.asked == (if a.asked.Some? || causes == [] then a.asked else Some(causes[0]))
            && after.requests == a.requests + (if a.asked.None? && causes != [] then 1 else 0)
  {
  }

  class BoundedStaQuoteQueue {
    const capacity: nat
    const sessionId: Id
    const health: PipelineHealth
    const metrics: IngressMetrics
    const impact: SessionImpactTracker
    const shutdown: ControlledShutdown
    var queue: seq<Notification>
    var overflow: Option<Notification>
    /** The calls so far. */
    ghost var ops: seq<StaOp>
    /** Where among the tracker's operations each overflow has marked the session. */
    ghost var places: seq<nat>

    /** Every overflow so far has marked the session incomplete. */
    ghost predicate OverflowsMarked()
      reads this, impact
    {
      DoneAt(impact.ops, places, StaMarks(sessionId, capacity, ops))
    }

    ghost predicate Valid()
      reads this, metrics`lanes, health, impact, shutdown
    {
      Running() && OverflowsMarked() && (StaRun(capacity, ops).lost != [] ==> shutdown.Requested())
    }

    constructor (capacity: nat, health: PipelineHealth, metrics: IngressMetrics, impact: SessionImpactTracker,
                 shutdown: ControlledShutdown, sessionId: Id)
      requires capacity > 0 && health.Valid() && impact.Valid() && shutdown.Valid() && metrics.Valid()
      requires metrics.lanes[StaQuoteLane].capacity in {0, capacity + 1}
      modifies metrics`lanes
      ensures Valid() && ops == [] && this.capacity == capacity && this.sessionId == sessionId
      ensures this.health == health && this.metrics == metrics && this.impact == impact && this.shutdown == shutdown
    {
      this.capacity, this.sessionId := capacity, sessionId;
      this.health, this.metrics, this.impact, this.shutdown := health, metrics, impact, shutdown;
      queue, overflow, ops, places := [], None, [], [];
      new;
      var ok := metrics.SetCapacity(StaQuoteLane, capacity + 1);
    }

    ghost function Alarms(): Alarm
      reads health, impact, shutdown, metrics`shutdownRequests
    {
      AlarmOf(health, impact, shutdown, metrics)
    }

    /** Everything but the marks of the overflows. */
    ghost predicate Running()
      reads this, metrics`lanes, health, impact, shutdown
    {
      && capacity > 0
      && health.Valid() && impact.Valid() && shutdown.Valid() && metrics.Valid()
      && metrics.lanes[StaQuoteLane].capacity == capacity + 1
      && |queue| <= capacity
      && Sta(queue, overflow) == StaRun(capacity, ops).sta
    }

    /** Every overflow so far but the last one has marked the session. */
    ghost predicate MarkDue()
      reads this, impact
    {
      var marks := StaMarks(sessionId, capacity, ops);
      marks != [] && marks[|marks| - 1] == OverflowMark(sessionId) && DoneAt(impact.ops, places, marks[..|marks| - 1])
    }

    /** Every overflow marks the session incomplete; a loss also requests shutdown. */
    method TryPublish(n: Notification) returns (decision: StaDecision)
      requires Valid()
      modifies this, metrics`lanes, metrics`firstDroppedTick, metrics`lastDroppedTick, metrics`shutdownRequests
      modifies health, impact, shutdown
      ensures Valid() && ops == old(ops) + [Offer(n)]
      ensures decision.StaAccepted? <==> old(|queue|) < capacity
      ensures queue == old(queue) + (if old(|queue|) < capacity then [n] else [])
      ensures overflow == if old(|queue|) == capacity && old(overflow) == None then Some(n) else old(overflow)
      ensures impact.ops == old(impact.ops) + if decision.StaOverflow? then [OverflowMark(sessionId)] else []
      ensures decision.StaAccepted? ==> impact.Damage() == old(impact.Damage()) && Alarms() == old(Alarms())
      ensures decision.StaOverflow? ==>
                && impact.Damage() == Damaged(old(impact.Damage()), impact.maxSessions, impact.maxReasons, OverflowMark(sessionId))
                && Alarms() == Handled(old(Alarms()), sessionId, old(overflow).Some?,
                                       old(impact.Damage().HasRoom(sessionId, impact.maxSessions)))
      ensures OfferCounted(old(metrics.lanes[StaQuoteLane]), decision.StaAccepted?)
    {
      var accepted, fatal := Enqueue(n);
      if accepted {
        return StaAccepted;
      }
      PlaceMark();
      Overflowed(fatal);
      return StaOverflow;
    }

    /** The offer is counted once, with the number of notifications that now wait. */
    ghost predicate OfferCounted(before: LaneCounters, accepted: bool)
      reads this, metrics`lanes
      requires StaQuoteLane in metrics.lanes
    {
      CountsOne(before, metrics.lanes[StaQuoteLane], if accepted then AcceptedOutcome else DroppedOutcome, !accepted, Depth())
    }

    function Depth(): nat
      reads this
    {
      |queue| + if overflow.Some? then 1 else 0
    }

    /** The locked section: the queue or the slot, and the counters. */
    method Enqueue(n: Notification) returns (accepted: bool, fatal: bool)
      requires Valid()
      modifies this`queue, this`overflow, this`ops, metrics`lanes, metrics`firstDroppedTick, metrics`lastDroppedTick
      ensures Running() && ops == old(ops) + [Offer(n)]
      ensures accepted == old(|queue| < capacity) && fatal == (!accepted && old(overflow).Some?)
      ensures queue == old(queue) + if accepted then [n] else []
      ensures overflow == if !accepted && !fatal then Some(n) else old(overflow)
      ensures StaRun(capacity, ops).lost == old(StaRun(capacity, ops).lost) + if fatal then [n] else []
      ensures if accepted then OverflowsMarked() else MarkDue()
      ensures OfferCounted(old(metrics.lanes[StaQuoteLane]), accepted)
    {
      StaRunAppend(capacity, ops, Offer(n));
      StaMarksNext(sessionId, capacity, ops, Offer(n));
      accepted, fatal := |queue| < capacity, false;
      if accepted {
        queue := queue + [n];
      } else {
        fatal := overflow.Some?;
        if !fatal {
          overflow := Some(n);
        }
      }
      ops := ops + [Offer(n)];
      var ok := metrics.RecordResult(StaQuoteLane, if accepted then AcceptedOutcome else DroppedOutcome, None, !accepted, Depth());
    }

    /** Notes where the mark of an overflow is about to be put. */
    ghost method PlaceMark()
      requires MarkDue()
      modifies this`places
      ensures DoneAt(impact.ops + [OverflowMark(sessionId)], places, StaMarks(sessionId, capacity, ops))
    {
      var marks := StaMarks(sessionId, capacity, ops);
      OneMoreDone(impact.ops, [OverflowMark(sessionId)], places, marks[..|marks| - 1]);
      places := places + [|impact.ops|];
    }

    method Overflowed(fatal: bool)
      requires health.Valid() && impact.Valid() && shutdown.Valid()
      modifies metrics`shutdownRequests, health, impact, shutdown
      ensures health.Valid() && impact.Valid() && shutdown.Valid()
      ensures impact.Damage() == Damaged(old(impact.Damage()), impact.maxSessions, impact.maxReasons, OverflowMark(sessionId))
      ensures impact.ops == old(impact.ops) + [OverflowMark(sessionId)]
      ensures Alarms() == Handled(old(Alarms()), sessionId, fatal, old(impact.Damage().HasRoom(sessionId, impact.maxSessions)))
    {
      health.Degrade(OVERFLOW_REASON);
      var marked := impact.MarkIncomplete(sessionId, OVERFLOW_REASON);
      if !marked {
        FailAndShutdown(NO_ROOM);
      }
      if fatal {
        FailAndShutdown(SLOT_EXHAUSTED);
      }
    }

    method FailAndShutdown(reason: Reason)
      requires health.Valid() && shutdown.Valid()
      modifies metrics`shutdownRequests, health, shutdown
      ensures health.Valid() && shutdown.Valid()
      ensures Alarms() == Asked(Worsened(old(Alarms()), Failed, reason), reason)
    {
      health.Fail(reason);
      var first := shutdown.RequestShutdown(reason);
      if first {
        metrics.RecordShutdownRequest();
      }
    }

    method TryPop() returns (item: Option<Notification>)
      requires Valid()
      modifies this`queue, this`ops, metrics`lanes
      ensures Valid() && ops == old(ops) + [Take]
      ensures item == (if old(queue) == [] then None else Some(old(queue)[0]))
      ensures queue == if old(queue) == [] then [] else old(queue)[1..]
      ensures metrics.lanes == if item.None? then old(metrics.lanes)
                               else old(metrics.lanes)[StaQuoteLane := old(metrics.lanes[StaQuoteLane]).(depth := Depth())]
    {
      StaRunAppend(capacity, ops, Take);
      StaMarksNext(sessionId, capacity, ops, Take);
      ops := ops + [Take];
      if queue == [] {
        return None;
      }
      item, queue := Some(queue[0]), queue[1..];
      var ok := metrics.UpdateDepth(StaQuoteLane, Depth());
    }

    method TryPopOverflow() returns (item: Option<Notification>)
      requires Valid()
      modifies this`overflow, this`ops, metrics`lanes
      ensures Valid() && ops == old(ops) + [TakeOverflow]
      ensures item == old(overflow) && overflow.None? && queue == old(queue)
      ensures metrics.lanes == if item.None? then old(metrics.lanes)
                               else old(metrics.lanes)[StaQuoteLane := old(metrics.lanes[StaQuoteLane]).(depth := |queue|)]
    {
      StaRunAppend(capacity, ops, TakeOverflow);
      StaMarksNext(sessionId, capacity, ops, TakeOverflow);
      ops := ops + [TakeOverflow];
      item, overflow := overflow, None;
      if item.Some? {
        var ok := metrics.UpdateDepth(StaQuoteLane, |queue|);
      }
    }

    /**
     * In every reachable state, whoever else uses the tracker: after the k-th
     * overflow the session is incomplete unless it was cleared since.
     */
    lemma OverflowsAreIncomplete(k: nat, requested: string)
      requires Valid() && k < |places| && DamageOp.Clear(sessionId) !in impact.ops[places[k] + 1..]
      ensures impact.Damage().TerminalStatus(sessionId, requested) == "incomplete"
    {
      impact.DamageIsKept(places[k], requested);
    }

    /** Other objects may use the tracker, the health, the shutdown and the other lanes in between. */
    twostate lemma OthersMayInterleave()
      requires old(Valid()) && unchanged(this) && health.Valid() && impact.Valid() && shutdown.Valid() && metrics.Valid()
      requires metrics.lanes[StaQuoteLane].capacity == old(metrics.lanes[StaQuoteLane].capacity)
      requires old(impact.ops) <= impact.ops && (old(shutdown.Requested()) ==> shutdown.Requested())
      ensures Valid()
    {
      StillDone(old(impact.ops), impact.ops, places, StaMarks(sessionId, capacity, ops));
    }
  }
}
