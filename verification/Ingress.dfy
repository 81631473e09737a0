/**
 * The class `BoundedIngress` of tx_trade/market_data/ingress.py.  A locked
 * section is one method call; every method is proved to take the step of
 * IngressQueues that its name says, so any interleaving of calls is a run of
 * IngressHistory.
 */
module Ingress {
  import opened Wrappers
  import RecencyWindow
  import opened IngressQueues
  import opened IngressHistory
  import opened IngressDecisions
  import opened Monitoring

  // ---- The OrderedDict of quotes -------------------------------------------------------

  /** The keys in insertion order, and the event of each. */
  ghost predicate QuotesStored(order: seq<QuoteKey>, byKey: map<QuoteKey, Event>) {
    && (forall i, j :: 0 <= i < j < |order| ==> order[i] != order[j])
    && (forall k :: k in order <==> k in byKey)
    && (forall k :: k in byKey ==> LaneOf(byKey[k]).Quote? && KeyOf(byKey[k]) == k)
  }

  function QuoteEvents(order: seq<QuoteKey>, byKey: map<QuoteKey, Event>): (events: seq<Event>)
    requires forall k :: k in order ==> k in byKey
    ensures |events| == |order| && forall i :: 0 <= i < |order| ==> events[i] == byKey[order[i]]
  {
    seq(|order|, i requires 0 <= i < |order| => byKey[order[i]])
  }

  lemma StoredEvents(order: seq<QuoteKey>, byKey: map<QuoteKey, Event>, key: QuoteKey)
    requires QuotesStored(order, byKey)
    ensures forall e :: e in QuoteEvents(order, byKey) ==> LaneOf(e).Quote?
    ensures key in byKey <==> Place(QuoteEvents(order, byKey), key) < |order|
    ensures key in byKey ==> order[Place(QuoteEvents(order, byKey), key)] == key
  {
    if key in byKey {
      var i :| 0 <= i < |order| && order[i] == key;
      assert QuoteEvents(order, byKey)[i] == byKey[key];
    }
  }

  lemma FirstKeyLeaves(order: seq<QuoteKey>, byKey: map<QuoteKey, Event>)
    requires QuotesStored(order, byKey) && order != []
    ensures QuotesStored(order[1..], byKey - {order[0]})
  {
    var rest, left := order[1..], byKey - {order[0]};
    assert order == [order[0]] + rest;
    forall k ensures k in rest <==> k in left {
      assert k in order <==> k == order[0] || k in rest;
      assert order[0] !in rest;
    }
    forall k | k in left ensures LaneOf(left[k]).Quote? && KeyOf(left[k]) == k {
      assert left[k] == byKey[k];
    }
  }

  lemma FirstQuoteLeaves(order: seq<QuoteKey>, byKey: map<QuoteKey, Event>)
    requires QuotesStored(order, byKey) && order != []
    ensures QuotesStored(order[1..], byKey - {order[0]})
    ensures QuoteEvents(order, byKey) == [byKey[order[0]]] + QuoteEvents(order[1..], byKey - {order[0]})
  {
    FirstKeyLeaves(order, byKey);
    TailOfEvents(order, byKey, byKey - {order[0]});
  }

  lemma TailOfEvents(order: seq<QuoteKey>, byKey: map<QuoteKey, Event>, left: map<QuoteKey, Event>)
    requires order != [] && forall k :: k in order ==> k in byKey
    requires forall k :: k in order[1..] ==> k in left && left[k] == byKey[k]
    ensures QuoteEvents(order, byKey) == [byKey[order[0]]] + QuoteEvents(order[1..], left)
  {
    forall i | 1 <= i < |order| ensures QuoteEvents(order, byKey)[i] == QuoteEvents(order[1..], left)[i - 1] {
      assert order[1..][i - 1] == order[i] && order[i] in order[1..];
    }
  }

  // ---- Counters against the log ------------------------------------------------------------

  function MetricOf(lane: Lane): MetricLane {
    match lane
    case Diagnostic => DiagnosticLane
    case Control => ControlLane
    case Quote => QuoteLane
    case Tick => TickLane
  }

  function OutcomeOf(decision: Decision): Outcome {
    match decision
    case Accepted => AcceptedOutcome
    case Coalesced => CoalescedOutcome
    case Dropped => DroppedOutcome
    case Duplicate => DuplicateOutcome
  }

  /** Something has happened on the lane. */
  predicate Touched(log: Log, lane: Lane) {
    exists r :: r in log && LaneOf(r.event) == lane
  }

  /** What a lane's counters show after a log, counted on from what they showed before; the depth is set by the first event. */
  function Tally(base: LaneCounters, log: Log, lane: Lane, depth: nat, capacity: nat): LaneCounters {
    LaneCounters(base.received + Received(log, lane), base.accepted + Count(log, lane, Accepted),
                 base.coalesced + Count(log, lane, Coalesced), base.dropped + Count(log, lane, Dropped),
                 base.duplicates + Count(log, lane, Duplicate), base.overflow + Count(log, lane, Dropped),
                 if Touched(log, lane) then depth else base.depth, capacity)
  }

  lemma TouchedNext(log: Log, r: Record, lane: Lane)
    ensures Touched(log + [r], lane) <==> Touched(log, lane) || LaneOf(r.event) == lane
  {
    assert r in log + [r];
    if Touched(log, lane) {
      var earlier :| earlier in log && LaneOf(earlier.event) == lane;
      assert earlier in log + [r];
    }
  }

  lemma TallyStep(base: LaneCounters, log: Log, r: Record, lane: Lane, depth: nat, next: nat, capacity: nat)
    requires LaneOf(r.event) != lane ==> next == depth
    ensures Tally(base, log + [r], lane, next, capacity)
            == if LaneOf(r.event) != lane then Tally(base, log, lane, depth, capacity)
               else if r.Published? then Counted(Tally(base, log, lane, depth, capacity), OutcomeOf(r.decision), r.decision.Dropped?, next)
               else Tally(base, log, lane, depth, capacity).(depth := next)
  {
    LastRecord(log, r);
    TouchedNext(log, r, lane);
  }

  /** Counters of all lanes. */
  type Counters = map<MetricLane, LaneCounters>

  /** Every lane's counters tell the history of the queues. */
  ghost predicate Tallied(base: Counters, lanes: Counters, l: Limits, w: World) {
    forall lane: Lane :: LaneTallied(base, lanes, l, w, lane)
  }

  predicate LaneTallied(base: Counters, lanes: Counters, l: Limits, w: World, lane: Lane) {
    && MetricOf(lane) in lanes && MetricOf(lane) in base
    && lanes[MetricOf(lane)] == Tally(base[MetricOf(lane)], w.log, lane, |w.queues.Lane(lane)|, l.Capacity(lane))
  }

  lemma StartTallied(l: Limits, base: Counters, lanes: Counters)
    requires forall lane: Lane :: MetricOf(lane) in lanes && MetricOf(lane) in base
    requires forall lane: Lane :: lanes[MetricOf(lane)] == base[MetricOf(lane)].(capacity := l.Capacity(lane))
    ensures Tallied(base, lanes, l, Start())
  {
  }

  lemma PublishTallied(base: Counters, lanes: Counters, l: Limits, w: World, e: Event)
    requires w.queues.Valid(l) && Tallied(base, lanes, l, w)
    ensures MetricOf(LaneOf(e)) in lanes
    ensures var decision, next := Admit(l, w.queues, e).decision, Tell(l, w, Offer(e));
            var lane := LaneOf(e);
            Tallied(base, lanes[MetricOf(lane) := Counted(lanes[MetricOf(lane)], OutcomeOf(decision), decision.Dropped?,
                                                          |next.queues.Lane(lane)|)], l, next)
  {
    var decision, next, lane := Admit(l, w.queues, e).decision, Tell(l, w, Offer(e)), LaneOf(e);
    assert LaneTallied(base, lanes, l, w, lane);
    var after := lanes[MetricOf(lane) := Counted(lanes[MetricOf(lane)], OutcomeOf(decision), decision.Dropped?,
                                                 |next.queues.Lane(lane)|)];
    forall other: Lane ensures LaneTallied(base, after, l, next, other) {
      assert LaneTallied(base, lanes, l, w, other);
      if other != lane {
        OtherLanesStay(l, w.queues, e, other);
      }
      TallyStep(base[MetricOf(other)], w.log, Published(e, decision, CacheHit(w.queues, e)), other, |w.queues.Lane(other)|,
                |next.queues.Lane(other)|, l.Capacity(other));
    }
  }

  lemma OtherLanesStay(l: Limits, s: Queues, e: Event, other: Lane)
    requires s.Valid(l) && other != LaneOf(e)
    ensures Publish(l, s, e).Lane(other) == s.Lane(other)
  {
  }

  lemma PopTallied(base: Counters, lanes: Counters, l: Limits, w: World, lane: Lane)
    requires w.queues.Valid(l) && Tallied(base, lanes, l, w) && NextLane(l, w.queues) == Some(lane)
    ensures MetricOf(lane) in lanes
    ensures var next := Tell(l, w, Take);
            Tallied(base, lanes[MetricOf(lane) := lanes[MetricOf(lane)].(depth := |next.queues.Lane(lane)|)], l, next)
  {
    NextLaneWaits(l, w.queues);
    assert LaneTallied(base, lanes, l, w, lane);
    var next, e := Tell(l, w, Take), w.queues.Lane(lane)[0];
    assert e in w.queues.Lane(lane);
    assert next.log == w.log + [Popped(e)];
    var after := lanes[MetricOf(lane) := lanes[MetricOf(lane)].(depth := |next.queues.Lane(lane)|)];
    forall other: Lane ensures LaneTallied(base, after, l, next, other) {
      PoppedLane(l, w.queues, lane, other);
      PopLaneTallied(base, lanes, l, w, next, e, other);
    }
  }

  lemma PopLaneTallied(base: Counters, lanes: Counters, l: Limits, w: World, next: World, e: Event, other: Lane)
    requires LaneTallied(base, lanes, l, w, other) && MetricOf(LaneOf(e)) in lanes
    requires next.log == w.log + [Popped(e)]
    requires other != LaneOf(e) ==> next.queues.Lane(other) == w.queues.Lane(other)
    ensures var lane := LaneOf(e);
            LaneTallied(base, lanes[MetricOf(lane) := lanes[MetricOf(lane)].(depth := |next.queues.Lane(lane)|)], l, next, other)
  {
    TallyStep(base[MetricOf(other)], w.log, Popped(e), other, |w.queues.Lane(other)|, |next.queues.Lane(other)|, l.Capacity(other));
    DifferentMetrics(LaneOf(e), other);
  }

  lemma DifferentMetrics(a: Lane, b: Lane)
    ensures MetricOf(a) == MetricOf(b) <==> a == b
  {
  }

  lemma {:induction false} RunAppend(l: Limits, w: World, actions: seq<Action>, a: Action)
    requires w.queues.Valid(l)
    ensures Run(l, w, actions + [a]) == Tell(l, Run(l, w, actions), a)
    decreases |actions|
  {
    if actions == [] {
      assert actions + [a] == [a];
    } else {
      assert (actions + [a])[1..] == actions[1..] + [a];
      RunAppend(l, Tell(l, w, actions[0]), actions[1..], a);
    }
  }

  /** Everything a publish has to establish about the run and its counters. */
  lemma PublishAgrees(l: Limits, actions: seq<Action>, base: Counters, lanes: Counters, e: Event)
    requires l.Valid() && Tallied(base, lanes, l, Run(l, Start(), actions))
    ensures var s, lane := Run(l, Start(), actions).queues, LaneOf(e);
            var next, decision := Publish(l, s, e), Admit(l, s, e).decision;
            var depth := |next.Lane(lane)|;
            && MetricOf(lane) in lanes && lanes[MetricOf(lane)].capacity == l.Capacity(lane) && depth <= l.Capacity(lane)
            && Run(l, Start(), actions + [Offer(e)]).queues == next
            && Tallied(base, lanes[MetricOf(lane) := Counted(lanes[MetricOf(lane)], OutcomeOf(decision), decision.Dropped?, depth)],
                       l, Run(l, Start(), actions + [Offer(e)]))
  {
    var w := Run(l, Start(), actions);
    RunAppend(l, Start(), actions, Offer(e));
    PublishTallied(base, lanes, l, w, e);
    PublishKeepsValid(l, w.queues, e);
    assert LaneTallied(base, lanes, l, w, LaneOf(e));
  }

  lemma PublishLogged(l: Limits, actions: seq<Action>, e: Event)
    requires l.Valid()
    ensures var w := Run(l, Start(), actions);
            && Admit(l, w.queues, e).decision == DecisionFor(l, w.log, e)
            && Run(l, Start(), actions + [Offer(e)]).log
               == w.log + [Published(e, Admit(l, w.queues, e).decision, CacheHit(w.queues, e))]
  {
    NextDecision(l, actions, e);
    RunAppend(l, Start(), actions, Offer(e));
  }

  /** Everything a pop has to establish about the run and its counters. */
  lemma PopAgrees(l: Limits, actions: seq<Action>, base: Counters, lanes: Counters)
    requires l.Valid() && Tallied(base, lanes, l, Run(l, Start(), actions))
    ensures var s := Run(l, Start(), actions).queues;
            && Run(l, Start(), actions + [Take]).queues == Pop(l, s).0
            && match NextLane(l, s)
               case None => Tallied(base, lanes, l, Run(l, Start(), actions + [Take]))
               case Some(lane) =>
                 var depth := |Pop(l, s).0.Lane(lane)|;
                 && MetricOf(lane) in lanes && lanes[MetricOf(lane)].capacity == l.Capacity(lane) && depth <= l.Capacity(lane)
                 && Tallied(base, lanes[MetricOf(lane) := lanes[MetricOf(lane)].(depth := depth)], l, Run(l, Start(), actions + [Take]))
  {
    var w := Run(l, Start(), actions);
    RunAppend(l, Start(), actions, Take);
    PopKeepsValid(l, w.queues);
    match NextLane(l, w.queues)
    case None =>
      assert w.log + [] == w.log;
    case Some(lane) =>
      PopTallied(base, lanes, l, w, lane);
      assert LaneTallied(base, lanes, l, w, lane);
  }

  /** A lane's counters, from where they stood before, against the log and the queue. */
  ghost predicate LaneTold(before: LaneCounters, now: LaneCounters, w: World, lane: Lane, capacity: nat) {
    var accepted, dropped := now.accepted - before.accepted, now.dropped - before.dropped;
    && accepted == |PoppedFrom(w.log, lane)| + |w.queues.Lane(lane)|
    && now.received - before.received
       == accepted + (now.coalesced - before.coalesced) + dropped + (now.duplicates - before.duplicates)
    && now.overflow - before.overflow == dropped && now.capacity == capacity
    && accepted == Count(w.log, lane, Accepted) && dropped == Count(w.log, lane, Dropped)
    && now.coalesced - before.coalesced == Count(w.log, lane, Coalesced)
    && ((exists r :: r in w.log && On(lane, r.event)) ==> now.depth == |w.queues.Lane(lane)|)
  }

  lemma TallyTells(before: LaneCounters, w: World, lane: Lane, capacity: nat)
    requires Count(w.log, lane, Accepted) == |PoppedFrom(w.log, lane)| + |w.queues.Lane(lane)|
    requires Received(w.log, lane) == Count(w.log, lane, Accepted) + Count(w.log, lane, Coalesced)
                                      + Count(w.log, lane, Dropped) + Count(w.log, lane, Duplicate)
    ensures LaneTold(before, Tally(before, w.log, lane, |w.queues.Lane(lane)|, capacity), w, lane, capacity)
  {
  }

  // ---- Overflow ---------------------------------------------------------------------------

  function OverflowReason(lane: Lane): Reason {
    match lane
    case Diagnostic => "diagnostic_ingress_overflow"
    case Control => "control_ingress_overflow"
    case Quote => "quote_ingress_overflow"
    case Tick => "tick_ingress_overflow"
  }

  function OverflowMark(e: Event): DamageOp {
    DamageOp.MarkIncomplete(e.session, OverflowReason(LaneOf(e)))
  }

  /** The damage a dropped event does to its session's recording. */
  function OverflowDamage(e: Event): seq<DamageOp> {
    [OverflowMark(e)] +
    if LaneOf(e).Tick? then [RecordDroppedTick(e.session, e.sequence)] else []
  }

  /** The name under which an overflow of a lane is on record. */
  predicate Names(reason: Reason, e: Event) {
    || (e.payload.AdapterDiagnostic? && reason == "diagnostic_ingress_overflow")
    || ((e.payload.ConnectionNotification? || e.payload.ServerTimeNotification? || e.payload.StockListNotification?)
        && reason == "control_ingress_overflow")
    || (e.payload.QuoteSnapshot? && reason == "quote_ingress_overflow")
    || (e.payload.TickNotification? && reason == "tick_ingress_overflow")
  }

  /** The events whose loss the pipeline does not survive. */
  predicate Vital(e: Event) {
    !e.payload.QuoteSnapshot? && !e.payload.TickNotification?
  }

  /**
   * An overflow marks the session under the lane's reason, and counts a lost
   * tick.  Health fails when a vital event is lost or the damage finds no room,
   * and degrades otherwise; the same two ask for shutdown, the missing room
   * first.
   */
  ghost predicate Overflowed(before: Alarm, after: Alarm, e: Event, room: bool) {
    exists reason :: Names(reason, e) &&
      (var nowhere := "session_impact_capacity_exhausted";
       var asks := if !room then Some(nowhere) else if Vital(e) then Some(reason) else None;
       && after.damage == before.damage + [MarkIncomplete(e.session, reason)]
                          + (if e.payload.TickNotification? then [RecordDroppedTick(e.session, e.sequence)] else [])
       && after.told == before.told + [reason]
                        + (if room then [] else if e.payload.TickNotification? then [nowhere, nowhere] else [nowhere])
       && after.health == (if Vital(e) || !room || before.health == Failed then Failed else Degraded)
       && after.asked == (if before.asked.Some? then before.asked else asks)
       && after.requests == before.requests + (if before.asked.None? && asks.Some? then 1 else 0))
  }

  /** Damage that finds no room also asks for shutdown. */
  function NotedOrAsked(a: Alarm, op: DamageOp, room: bool): Alarm {
    if room then Noted(a, op, room) else Asked(Noted(a, op, room), NO_ROOM)
  }

  /** The damage of an overflow is noted, for a tick its loss as well. */
  function Lost(a: Alarm, e: Event, room: bool): Alarm {
    var marked := NotedOrAsked(a, OverflowMark(e), room);
    if LaneOf(e).Tick? then NotedOrAsked(marked, DamageOp.RecordDroppedTick(e.session, e.sequence), room) else marked
  }

  /** The handling of an overflow, step by step. */
  function Handled(a: Alarm, e: Event, room: bool): Alarm {
    var lane := LaneOf(e);
    var counted := Lost(Worsened(a, if Critical(lane) then Failed else Degraded, OverflowReason(lane)), e, room);
    if Critical(lane) then Asked(counted, OverflowReason(lane)) else counted
  }

  lemma HandledMeans(a: Alarm, e: Event, room: bool)
    ensures Overflowed(a, Handled(a, e, room), e, room)
  {
    assert Names(OverflowReason(LaneOf(e)), e);
  }

  lemma OverflowDamageIs(d: DamageReport, maxSessions: nat, maxReasons: nat, e: Event)
    requires maxReasons > 0
    ensures var marked := Damaged(d, maxSessions, maxReasons, MarkIncomplete(e.session, OverflowReason(LaneOf(e))));
            AfterDamage(d, maxSessions, maxReasons, OverflowDamage(e))
            == if LaneOf(e).Tick? then Damaged(marked, maxSessions, maxReasons, RecordDroppedTick(e.session, e.sequence)) else marked
  {
    var mark := MarkIncomplete(e.session, OverflowReason(LaneOf(e)));
    assert [mark][..0] == [] && AfterDamage(d, maxSessions, maxReasons, [mark]) == Damaged(d, maxSessions, maxReasons, mark);
    if LaneOf(e).Tick? {
      assert OverflowDamage(e)[..1] == [mark];
    } else {
      assert OverflowDamage(e) == [mark];
    }
  }

  /** The marks that the dropped events of a log call for. */
  function OverflowMarks(log: Log): seq<DamageOp> {
    if log == [] then []
    else
      var n := |log| - 1;
      OverflowMarks(log[..n]) + if log[n].Published? && log[n].decision.Dropped? then [OverflowMark(log[n].event)] else []
  }

  lemma MarksNext(log: Log, r: Record)
    ensures OverflowMarks(log + [r])
            == OverflowMarks(log) + if r.Published? && r.decision.Dropped? then [OverflowMark(r.event)] else []
  {
    LastRecord(log, r);
  }

  lemma PublishMarks(l: Limits, actions: seq<Action>, e: Event)
    requires l.Valid()
    ensures var w := Run(l, Start(), actions);
            OverflowMarks(Run(l, Start(), actions + [Offer(e)]).log)
            == OverflowMarks(w.log) + if Admit(l, w.queues, e).decision.Dropped? then [OverflowMark(e)] else []
  {
    var w := Run(l, Start(), actions);
    RunAppend(l, Start(), actions, Offer(e));
    MarksNext(w.log, Published(e, Admit(l, w.queues, e).decision, CacheHit(w.queues, e)));
  }

  lemma PopMarks(l: Limits, actions: seq<Action>)
    requires l.Valid()
    ensures OverflowMarks(Run(l, Start(), actions + [Take]).log) == OverflowMarks(Run(l, Start(), actions).log)
  {
    var w := Run(l, Start(), actions);
    RunAppend(l, Start(), actions, Take);
    var popped := Pop(l, w.queues).1;
    if popped.Some? {
      MarksNext(w.log, Popped(popped.value));
    } else {
      assert w.log + [] == w.log;
    }
  }

  method SetCapacities(metrics: IngressMetrics, l: Limits)
    requires l.Valid() && metrics.Valid()
    requires forall lane: Lane :: metrics.lanes[MetricOf(lane)].capacity in {0, l.Capacity(lane)}
    modifies metrics`lanes
    ensures metrics.Valid()
    ensures forall lane: Lane :: metrics.lanes[MetricOf(lane)] == old(metrics.lanes[MetricOf(lane)]).(capacity := l.Capacity(lane))
  {
    assert metrics.lanes[MetricOf(Control)].capacity in {0, l.control};
    var control := metrics.SetCapacity(ControlLane, l.control);
    assert metrics.lanes[MetricOf(Diagnostic)].capacity in {0, l.diagnostic};
    var diagnostic := metrics.SetCapacity(DiagnosticLane, l.diagnostic);
    assert metrics.lanes[MetricOf(Quote)].capacity in {0, l.quote};
    var quote := metrics.SetCapacity(QuoteLane, l.quote);
    assert metrics.lanes[MetricOf(Tick)].capacity in {0, l.tick};
    var tick := metrics.SetCapacity(TickLane, l.tick);
  }

  /** A pop that served a critical lane. */
  lemma CriticalPop(l: Limits, s: Queues, next: Queues, lane: Lane, e: Event)
    requires s.Valid(l) && s.CriticalWaiting() && (!s.MarketWaiting() || s.burst < l.burst)
    requires NextLane(l, s) == Some(lane) && s.Lane(lane) == [e] + next.Lane(lane)
    requires next == Served(l, s, lane).WithLane(lane, next.Lane(lane))
    ensures Pop(l, s) == (next, Some(e))
  {
  }

  lemma MarketPop(l: Limits, s: Queues, next: Queues, lane: Lane, e: Event)
    requires s.Valid(l) && s.MarketWaiting() && !(s.CriticalWaiting() && s.burst < l.burst)
    requires NextLane(l, s) == Some(lane) && s.Lane(lane) == [e] + next.Lane(lane)
    requires next == Served(l, s, lane).WithLane(lane, next.Lane(lane))
    ensures Pop(l, s) == (next, Some(e))
  {
  }

  /** What a quote does to the quotes that wait: it replaces the older one of its stock, or joins the end while there is room. */
  predicate QuoteOffered(before: seq<Event>, after: seq<Event>, capacity: nat, e: Event, decision: Decision) {
    if exists i :: 0 <= i < |before| && SameQuote(before[i], e) then
      forall i :: 0 <= i < |before| && SameQuote(before[i], e) ==>
        if e.sequence <= before[i].sequence then decision == Duplicate && after == before
        else decision == Coalesced && after == before[i := e]
    else if |before| < capacity then decision == Accepted && after == before + [e]
    else decision == Dropped && after == before
  }

  lemma OfferedQuote(order: seq<QuoteKey>, byKey: map<QuoteKey, Event>, capacity: nat, e: Event)
    requires QuotesStored(order, byKey) && LaneOf(e).Quote?
    ensures var before := QuoteEvents(order, byKey);
            && (forall q :: q in before ==> LaneOf(q).Quote?)
            && QuoteOffered(before, AdmitQuote(before, capacity, e).queue, capacity, e, AdmitQuote(before, capacity, e).decision)
  {
    var before := QuoteEvents(order, byKey);
    StoredEvents(order, byKey, KeyOf(e));
    var p := Place(before, KeyOf(e));
    forall i | 0 <= i < |before| ensures SameQuote(before[i], e) <==> i == p {
      assert before[i] == byKey[order[i]] && order[i] in order;
    }
  }

  class BoundedIngress {
    const limits: Limits
    const health: PipelineHealth
    const metrics: IngressMetrics
    const impact: SessionImpactTracker
    const shutdown: ControlledShutdown
    var diagnostic: seq<Event>
    var control: seq<Event>
    var quoteOrder: seq<QuoteKey>
    var quoteMap: map<QuoteKey, Event>
    var ticks: seq<Event>
    var recent: seq<DedupeKey>
    var marketTurn: Lane
    var criticalTurn: Lane
    var priorityBurst: nat
    /** What the counters showed when the ingress was built. */
    ghost const base: Counters
    /** The calls so far. */
    ghost var actions: seq<Action>
    /** Where among the tracker's operations each dropped event has marked its session. */
    ghost var places: seq<nat>

    ghost predicate Valid()
      reads this, metrics`lanes, health, impact, shutdown
    {
      CollaboratorsValid() && Faithful() && DropsMarked()
    }

    /** Every event dropped so far has marked its session incomplete. */
    ghost predicate DropsMarked()
      requires limits.Valid()
      reads `actions, `places, impact
    {
      DoneAt(impact.ops, places, OverflowMarks(History().log))
    }

    /** The fields and the counters are those of the run that led here. */
    ghost predicate Faithful()
      reads `diagnostic, `control, `quoteOrder, `quoteMap, `ticks, `recent, `marketTurn, `criticalTurn, `priorityBurst
      reads `actions, metrics`lanes
    {
      && limits.Valid() && metrics.Valid()
      && QuotesStored(quoteOrder, quoteMap)
      && State() == History().queues
      && Tallied(base, metrics.lanes, limits, History())
    }

    ghost predicate CollaboratorsValid()
      reads health, impact, shutdown
    {
      health.Valid() && impact.Valid() && shutdown.Valid()
    }

    ghost function State(): Queues
      requires QuotesStored(quoteOrder, quoteMap)
      reads `diagnostic, `control, `quoteOrder, `quoteMap, `ticks, `recent, `marketTurn, `criticalTurn, `priorityBurst
    {
      Queues(diagnostic, control, QuoteEvents(quoteOrder, quoteMap), ticks, recent, marketTurn, criticalTurn, priorityBurst)
    }

    ghost predicate Empty()
      requires QuotesStored(quoteOrder, quoteMap)
      reads this
    {
      !State().CriticalWaiting() && !State().MarketWaiting()
    }

    /** The run that led here. */
    ghost function History(): World
      requires limits.Valid()
      reads `actions
    {
      Run(limits, Start(), actions)
    }

    constructor (limits: Limits, health: PipelineHealth, metrics: IngressMetrics, impact: SessionImpactTracker,
                 shutdown: ControlledShutdown)
      requires limits.Valid() && health.Valid() && impact.Valid() && shutdown.Valid() && metrics.Valid()
      requires forall lane: Lane :: metrics.lanes[MetricOf(lane)].capacity in {0, limits.Capacity(lane)}
      modifies metrics`lanes
      ensures Valid() && actions == [] && this.limits == limits
      ensures this.health == health && this.metrics == metrics && this.impact == impact && this.shutdown == shutdown
    {
      this.limits, this.health, this.metrics, this.impact, this.shutdown := limits, health, metrics, impact, shutdown;
      diagnostic, control, quoteOrder, quoteMap, ticks, recent := [], [], [], map[], [], [];
      marketTurn, criticalTurn, priorityBurst := Quote, Diagnostic, 0;
      base, actions, places := metrics.lanes, [], [];
      new;
      SetCapacities(metrics, limits);
      StartTallied(limits, base, metrics.lanes);
      assert State() == Idle();
    }

    ghost function Alarms(): Alarm
      reads health, impact, shutdown, metrics`shutdownRequests
    {
      AlarmOf(health, impact, shutdown, metrics)
    }

    // ---- Publishing --------------------------------------------------------------------------

    method TryPublish(e: Event) returns (decision: Decision)
      requires Valid()
      modifies this, metrics`lanes, metrics`firstDroppedTick, metrics`lastDroppedTick, metrics`shutdownRequests
      modifies health, impact, shutdown
      ensures Valid() && actions == old(actions) + [Offer(e)]
      ensures decision == old(Admit(limits, State(), e)).decision && State() == old(Publish(limits, State(), e))
      ensures decision == DecisionFor(limits, old(History().log), e)
      ensures impact.ops == old(impact.ops) + if decision.Dropped? then OverflowDamage(e) else []
      ensures !decision.Dropped? ==> Alarms() == old(Alarms())
      ensures !decision.Dropped? ==> impact.Damage() == old(impact.Damage())
      ensures decision.Dropped? ==>
                && Alarms() == Handled(old(Alarms()), e, old(impact.Damage().HasRoom(e.session, impact.maxSessions)))
                && impact.Damage() == AfterDamage(old(impact.Damage()), impact.maxSessions, impact.maxReasons, OverflowDamage(e))
    {
      decision := PublishLocked(e);
      if decision.Dropped? {
        Overflow(e);
      }
    }

    /** Every event dropped so far but the last one has marked its session. */
    ghost predicate MarkDue(e: Event)
      requires limits.Valid()
      reads `actions, `places, impact
    {
      var marks := OverflowMarks(History().log);
      marks != [] && marks[|marks| - 1] == OverflowMark(e) && DoneAt(impact.ops, places, marks[..|marks| - 1])
    }

    /** After the locked section: the overflow that a drop is. */
    method Overflow(e: Event)
      requires CollaboratorsValid() && Faithful() && MarkDue(e)
      modifies this`places, health, impact, shutdown, metrics`shutdownRequests
      ensures Valid()
      ensures impact.ops == old(impact.ops) + OverflowDamage(e)
      ensures Alarms() == Handled(old(Alarms()), e, old(impact.Damage().HasRoom(e.session, impact.maxSessions)))
      ensures impact.Damage() == AfterDamage(old(impact.Damage()), impact.maxSessions, impact.maxReasons, OverflowDamage(e))
    {
      PlaceMark(e);
      HandleOverflow(LaneOf(e), e);
    }

    /** Notes where the mark of a dropped event is about to be put. */
    ghost method PlaceMark(e: Event)
      requires limits.Valid() && MarkDue(e)
      modifies this`places
      ensures DoneAt(impact.ops + OverflowDamage(e), places, OverflowMarks(History().log))
    {
      var marks := OverflowMarks(History().log);
      OneMoreDone(impact.ops, OverflowDamage(e), places, marks[..|marks| - 1]);
      places := places + [|impact.ops|];
    }

    /** The locked section: the queues, the dedupe cache and the counters. */
    method PublishLocked(e: Event) returns (decision: Decision)
      requires Valid()
      modifies this, metrics`lanes, metrics`firstDroppedTick, metrics`lastDroppedTick
      ensures CollaboratorsValid() && Faithful() && actions == old(actions) + [Offer(e)]
      ensures !decision.Dropped? ==> Valid()
      ensures decision.Dropped? ==> MarkDue(e)
      ensures decision == old(Admit(limits, State(), e)).decision && State() == old(Publish(limits, State(), e))
      ensures decision == DecisionFor(limits, old(History().log), e)
    {
      PublishMarks(limits, actions, e);
      PublishLogged(limits, actions, e);
      decision := EnqueueAndCount(e);
    }

    /** The queues and the dedupe cache, and then the counters. */
    method EnqueueAndCount(e: Event) returns (decision: Decision)
      requires Faithful()
      modifies this, metrics`lanes, metrics`firstDroppedTick, metrics`lastDroppedTick
      ensures Faithful() && actions == old(actions) + [Offer(e)] && places == old(places)
      ensures decision == old(Admit(limits, State(), e)).decision && State() == old(Publish(limits, State(), e))
    {
      PublishAgrees(limits, actions, base, metrics.lanes, e);
      decision := Enqueue(e);
      var lane := LaneOf(e);
      DepthIs(lane);
      var ok := metrics.RecordResult(MetricOf(lane), OutcomeOf(decision),
                                     if lane.Tick? then Some(e.sequence) else None, decision.Dropped?, LaneDepth(lane));
      actions := actions + [Offer(e)];
    }

    lemma DepthIs(lane: Lane)
      requires QuotesStored(quoteOrder, quoteMap)
      ensures LaneDepth(lane) == |State().Lane(lane)|
    {
    }

    method Enqueue(e: Event) returns (decision: Decision)
      requires QuotesStored(quoteOrder, quoteMap) && State().Valid(limits)
      modifies this`diagnostic, this`control, this`ticks, this`quoteOrder, this`quoteMap, this`recent
      ensures QuotesStored(quoteOrder, quoteMap)
      ensures decision == old(Admit(limits, State(), e)).decision && State() == old(Publish(limits, State(), e))
    {
      var lane, key := LaneOf(e), DedupeKeyOf(e);
      if key.Some? && key.value in recent {
        recent := RecencyWindow.Touch(recent, key.value);
        return Duplicate;
      }
      if lane.Quote? {
        decision := PublishQuote(e);
      } else {
        decision := PublishFifo(lane, e);
      }
      if key.Some? && Admitted(decision) {
        RememberKey(key.value);
      }
    }

    method RememberKey(key: DedupeKey)
      modifies this`recent
      ensures recent == RecencyWindow.Remember(old(recent), key, limits.dedupe)
    {
      recent := RecencyWindow.Touch(recent, key);
      while |recent| > limits.dedupe
        invariant RecencyWindow.Last(recent, limits.dedupe) == RecencyWindow.Remember(old(recent), key, limits.dedupe)
      {
        recent := recent[1..];
      }
    }

    method PublishFifo(lane: Lane, e: Event) returns (decision: Decision)
      requires !lane.Quote? && QuotesStored(quoteOrder, quoteMap)
      modifies this`diagnostic, this`control, this`ticks
      ensures decision == if |old(State().Lane(lane))| < limits.Capacity(lane) then Accepted else Dropped
      ensures State().Lane(lane) == old(State().Lane(lane)) + if decision.Accepted? then [e] else []
      ensures decision == AdmitFifo(old(State().Lane(lane)), limits.Capacity(lane), e).decision
      ensures State() == old(State().WithLane(lane, AdmitFifo(State().Lane(lane), limits.Capacity(lane), e).queue))
    {
      var queue := if lane.Diagnostic? then diagnostic else if lane.Control? then control else ticks;
      if |queue| >= limits.Capacity(lane) {
        return Dropped;
      }
      if lane.Diagnostic? {
        diagnostic := diagnostic + [e];
      } else if lane.Control? {
        control := control + [e];
      } else {
        ticks := ticks + [e];
      }
      return Accepted;
    }

    method PublishQuote(e: Event) returns (decision: Decision)
      requires LaneOf(e).Quote? && QuotesStored(quoteOrder, quoteMap)
      requires forall q :: q in QuoteEvents(quoteOrder, quoteMap) ==> LaneOf(q).Quote?
      modifies this`quoteOrder, this`quoteMap
      ensures QuotesStored(quoteOrder, quoteMap)
      ensures var a := AdmitQuote(old(QuoteEvents(quoteOrder, quoteMap)), limits.quote, e);
              decision == a.decision && QuoteEvents(quoteOrder, quoteMap) == a.queue
      ensures QuoteOffered(old(QuoteEvents(quoteOrder, quoteMap)), QuoteEvents(quoteOrder, quoteMap), limits.quote, e, decision)
    {
      var key := KeyOf(e);
      StoredEvents(quoteOrder, quoteMap, key);
      OfferedQuote(quoteOrder, quoteMap, limits.quote, e);
      if key in quoteMap {
        if e.sequence <= quoteMap[key].sequence {
          return Duplicate;
        }
        quoteMap := quoteMap[key := e];
        return Coalesced;
      }
      if |quoteOrder| >= limits.quote {
        return Dropped;
      }
      quoteOrder, quoteMap := quoteOrder + [key], quoteMap[key := e];
      return Accepted;
    }

    function LaneDepth(lane: Lane): nat
      reads this
    {
      match lane
      case Diagnostic => |diagnostic|
      case Control => |control|
      case Quote => |quoteOrder|
      case Tick => |ticks|
    }

    // ---- Overflow ------------------------------------------------------------------------------

    method HandleOverflow(lane: Lane, e: Event)
      requires CollaboratorsValid() && lane == LaneOf(e)
      modifies health, impact, shutdown, metrics`shutdownRequests
      ensures CollaboratorsValid() && impact.ops == old(impact.ops) + OverflowDamage(e)
      ensures impact.Damage() == AfterDamage(old(impact.Damage()), impact.maxSessions, impact.maxReasons, OverflowDamage(e))
      ensures Alarms() == Handled(old(Alarms()), e, old(impact.Damage().HasRoom(e.session, impact.maxSessions)))
    {
      var reason := OverflowReason(lane);
      if Critical(lane) {
        health.Fail(reason);
      } else {
        health.Degrade(reason);
      }
      NoteLoss(e);
      if Critical(lane) {
        RequestShutdown(reason);
      }
    }

    method NoteLoss(e: Event)
      requires CollaboratorsValid()
      modifies health, impact, shutdown, metrics`shutdownRequests
      ensures CollaboratorsValid() && impact.ops == old(impact.ops) + OverflowDamage(e)
      ensures impact.Damage() == AfterDamage(old(impact.Damage()), impact.maxSessions, impact.maxReasons, OverflowDamage(e))
      ensures Alarms() == Lost(old(Alarms()), e, old(impact.Damage().HasRoom(e.session, impact.maxSessions)))
    {
      OverflowDamageIs(impact.Damage(), impact.maxSessions, impact.maxReasons, e);
      MarkIncomplete(e.session, OverflowReason(LaneOf(e)));
      if LaneOf(e).Tick? {
        RecordDroppedTick(e);
      }
    }

    method MarkIncomplete(session: Id, reason: Reason)
      requires CollaboratorsValid()
      modifies health, impact, shutdown, metrics`shutdownRequests
      ensures CollaboratorsValid() && impact.ops == old(impact.ops) + [DamageOp.MarkIncomplete(session, reason)]
      ensures impact.Damage() == Damaged(old(impact.Damage()), impact.maxSessions, impact.maxReasons,
                                         DamageOp.MarkIncomplete(session, reason))
      ensures var room := old(impact.Damage().HasRoom(session, impact.maxSessions));
              && impact.Damage().HasRoom(session, impact.maxSessions) == room
              && Alarms() == NotedOrAsked(old(Alarms()), DamageOp.MarkIncomplete(session, reason), room)
    {
      var marked := impact.MarkIncomplete(session, reason);
      if !marked {
        ImpactCapacityFailed();
      }
    }

    method RecordDroppedTick(e: Event)
      requires CollaboratorsValid()
      modifies health, impact, shutdown, metrics`shutdownRequests
      ensures CollaboratorsValid() && impact.ops == old(impact.ops) + [DamageOp.RecordDroppedTick(e.session, e.sequence)]
      ensures impact.Damage() == Damaged(old(impact.Damage()), impact.maxSessions, impact.maxReasons,
                                         DamageOp.RecordDroppedTick(e.session, e.sequence))
      ensures var room := old(impact.Damage().HasRoom(e.session, impact.maxSessions));
              && Alarms() == NotedOrAsked(old(Alarms()), DamageOp.RecordDroppedTick(e.session, e.sequence), room)
    {
      var recorded := impact.RecordDroppedTick(e.session, e.sequence);
      if !recorded {
        ImpactCapacityFailed();
      }
    }

    method ImpactCapacityFailed()
      requires CollaboratorsValid()
      modifies health, shutdown, metrics`shutdownRequests
      ensures CollaboratorsValid()
      ensures Alarms() == Asked(Worsened(old(Alarms()), Failed, NO_ROOM), NO_ROOM)
    {
      health.Fail(NO_ROOM);
      RequestShutdown(NO_ROOM);
    }

    method RequestShutdown(reason: Reason)
      requires CollaboratorsValid()
      modifies shutdown, metrics`shutdownRequests
      ensures CollaboratorsValid()
      ensures Alarms() == Asked(old(Alarms()), reason)
    {
      var first := shutdown.RequestShutdown(reason);
      if first {
        metrics.RecordShutdownRequest();
      }
    }

    // ---- Popping ---------------------------------------------------------------------------------

    method TryPop() returns (event: Option<Event>)
      requires Valid()
      modifies this, metrics`lanes
      ensures Valid() && actions == old(actions) + [Take]
      ensures (State(), event) == old(Pop(limits, State())) && (event.None? ==> Empty())
      ensures NextFollows(limits, old(History().log), event)
    {
      PopAgrees(limits, actions, base, metrics.lanes);
      PopMarks(limits, actions);
      NextServed(limits, actions);
      var lane;
      lane, event := Dequeue();
      if event.Some? {
        DepthIs(lane);
        var ok := metrics.UpdateDepth(MetricOf(lane), LaneDepth(lane));
      }
      actions := actions + [Take];
    }

    method Dequeue() returns (lane: Lane, event: Option<Event>)
      requires QuotesStored(quoteOrder, quoteMap) && State().Valid(limits)
      modifies this`diagnostic, this`control, this`ticks, this`quoteOrder, this`quoteMap
      modifies this`marketTurn, this`criticalTurn, this`priorityBurst
      ensures QuotesStored(quoteOrder, quoteMap)
      ensures (State(), event) == old(Pop(limits, State()))
      ensures event.Some? ==> Some(lane) == old(NextLane(limits, State()))
    {
      var criticalWaiting := diagnostic != [] || control != [];
      var marketWaiting := quoteOrder != [] || ticks != [];
      var e: Event;
      if criticalWaiting && (!marketWaiting || priorityBurst < limits.burst) {
        lane, e := PopCritical();
        priorityBurst := if priorityBurst + 1 < limits.burst then priorityBurst + 1 else limits.burst;
        event := Some(e);
        CriticalPop(limits, old(State()), State(), lane, e);
      } else if marketWaiting {
        lane, e := PopMarket();
        priorityBurst := 0;
        event := Some(e);
        MarketPop(limits, old(State()), State(), lane, e);
      } else {
        lane, event := Quote, None;
      }
    }

    method PopCritical() returns (lane: Lane, e: Event)
      requires (diagnostic != [] || control != []) && (criticalTurn.Diagnostic? || criticalTurn.Control?)
      modifies this`diagnostic, this`control, this`criticalTurn
      ensures lane == old(if diagnostic != [] && control != [] then criticalTurn
                          else if diagnostic != [] then Diagnostic else Control)
      ensures criticalTurn == old(if diagnostic != [] && control != [] then OtherLane(criticalTurn) else criticalTurn)
      ensures if lane.Diagnostic? then old(diagnostic) == [e] + diagnostic && control == old(control)
              else old(control) == [e] + control && diagnostic == old(diagnostic)
    {
      if diagnostic != [] && control != [] {
        lane := criticalTurn;
        criticalTurn := if lane.Diagnostic? then Control else Diagnostic;
      } else if diagnostic != [] {
        lane := Diagnostic;
      } else {
        lane := Control;
      }
      if lane.Diagnostic? {
        e, diagnostic := diagnostic[0], diagnostic[1..];
      } else {
        e, control := control[0], control[1..];
      }
    }

    method PopMarket() returns (lane: Lane, e: Event)
      requires (quoteOrder != [] || ticks != []) && (marketTurn.Quote? || marketTurn.Tick?)
      requires QuotesStored(quoteOrder, quoteMap)
      modifies this`quoteOrder, this`quoteMap, this`ticks, this`marketTurn
      ensures QuotesStored(quoteOrder, quoteMap)
      ensures lane == old(if quoteOrder != [] && ticks != [] then marketTurn else if quoteOrder != [] then Quote else Tick)
      ensures marketTurn == old(if quoteOrder != [] && ticks != [] then OtherLane(marketTurn) else marketTurn)
      ensures if lane.Quote?
              then old(QuoteEvents(quoteOrder, quoteMap)) == [e] + QuoteEvents(quoteOrder, quoteMap) && ticks == old(ticks)
              else old(ticks) == [e] + ticks && quoteOrder == old(quoteOrder) && quoteMap == old(quoteMap)
    {
      if quoteOrder != [] && ticks != [] {
        lane := marketTurn;
        marketTurn := if lane.Quote? then Tick else Quote;
      } else if quoteOrder != [] {
        lane := Quote;
      } else {
        lane := Tick;
      }
      if lane.Quote? {
        e := PopQuote();
      } else {
        e, ticks := ticks[0], ticks[1..];
      }
    }

    method PopQuote() returns (e: Event)
      requires quoteOrder != [] && QuotesStored(quoteOrder, quoteMap)
      modifies this`quoteOrder, this`quoteMap
      ensures QuotesStored(quoteOrder, quoteMap)
      ensures old(QuoteEvents(quoteOrder, quoteMap)) == [e] + QuoteEvents(quoteOrder, quoteMap)
    {
      var key := quoteOrder[0];
      FirstQuoteLeaves(quoteOrder, quoteMap);
      e := quoteMap[key];
      quoteOrder, quoteMap := quoteOrder[1..], quoteMap - {key};
    }

    // ---- Counters --------------------------------------------------------------------------------

    /**
     * In every reachable state a lane's counters, from where they stood before:
     * what was accepted has been popped or waits, every event received was
     * accepted, coalesced, dropped or a duplicate, and overflows are drops.
     */
    lemma CountersTell(lane: Lane, metric: MetricLane)
      requires Valid()
      requires (lane, metric) in {(Diagnostic, DiagnosticLane), (Control, ControlLane), (Quote, QuoteLane), (Tick, TickLane)}
      ensures metric in metrics.lanes && metric in base
      ensures LaneTold(base[metric], metrics.lanes[metric], History(), lane, limits.Capacity(lane))
    {
      assert LaneTallied(base, metrics.lanes, limits, History(), lane);
      LanesConserve(limits, actions, lane);
      TallyTells(base[metric], History(), lane, limits.Capacity(lane));
    }

    // ---- Damage ----------------------------------------------------------------------------------

    /**
     * In every reachable state, whoever else uses the tracker: the k-th dropped
     * event has its session incomplete unless the session was cleared since.
     */
    lemma DropsAreIncomplete(k: nat, requested: string)
      requires Valid() && k < |places|
      requires DamageOp.Clear(OverflowMarks(History().log)[k].session) !in impact.ops[places[k] + 1..]
      ensures impact.Damage().TerminalStatus(OverflowMarks(History().log)[k].session, requested) == "incomplete"
    {
      impact.DamageIsKept(places[k], requested);
    }

    /** Other objects may use the tracker, the health, the shutdown and the other lanes in between. */
    twostate lemma OthersMayInterleave()
      requires old(Valid()) && unchanged(this) && CollaboratorsValid() && metrics.Valid()
      requires forall lane: Lane :: metrics.lanes[MetricOf(lane)] == old(metrics.lanes[MetricOf(lane)])
      requires old(impact.ops) <= impact.ops
      ensures Valid()
    {
      StillDone(old(impact.ops), impact.ops, places, OverflowMarks(History().log));
      forall lane: Lane ensures LaneTallied(base, metrics.lanes, limits, History(), lane) {
        assert LaneTallied(base, old(metrics.lanes), limits, History(), lane);
      }
    }
  }
}
