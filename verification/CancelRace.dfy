/**
 * Fills racing a cancel.  Whatever the order of delivery, fresh confirmed fills
 * that together fit the remaining quantity and a CANCELLED event end in one
 * outcome.  DYNAMIC_CANCELLED races are in DynamicCancel.
 */
module CancelRace {
  import opened Wrappers
  import opened LiveContracts
  import opened LiveStateMachine
  import opened LiveOrderSafety
  import opened LiveOrderRuns
  import opened Sums

  /** The part of an order a race must agree on; version and timestamps may differ. */
  datatype Core = Core(
    state: OrderState, total: real, filled: real, remaining: real, average: Option<real>,
    limitPrice: Option<real>, pending: Option<Command>)

  function CoreOf(order: LiveOrder): Core {
    Core(order.state, order.total, order.filled, order.remaining, order.average, order.limitPrice, order.pending)
  }

  function EventId(op: Op): Id {
    match op
    case FillEventOp(event) => event.eventId
    case OrderEventOp(event) => event.eventId
    case _ => ""
  }

  function FillQuantity(op: Op): real {
    if op.FillEventOp? then op.fillEvent.quantity else 0.0
  }

  function FillCost(op: Op): real {
    if op.FillEventOp? then op.fillEvent.quantity * op.fillEvent.price else 0.0
  }

  predicate Dynamic(order: LiveOrder) {
    order.state in {Accepted, PartiallyFilled, CancelPending, Cancelled, Filled}
  }

  /** A racing operation: a confirmed fill of this order, or a confirmed cancel of a kind this order honours. */
  predicate Racing(order: LiveOrder, op: Op) {
    && op.Valid()
    && match op
       case FillEventOp(event) =>
         ConfirmedFor(order, event.correlation, event.accountId, event.instrumentId) && event.side == order.intent.side
       case OrderEventOp(event) =>
         && ConfirmedFor(order, event.correlation, event.accountId, event.instrumentId)
         && (event.eventType.CancelledAck? || (event.eventType.DynamicCancelled? && Dynamic(order)))
       case _ => false
  }

  ghost predicate Race(desk: Desk, ops: seq<Op>) {
    && Inv(desk.order) && !desk.order.state.Rejected?
    && (forall i :: 0 <= i < |ops| ==> Racing(desk.order, ops[i]))
    && (forall i :: 0 <= i < |ops| ==> !Recorded(desk.ledger, ops[i]))
    && (forall i, j :: 0 <= i < j < |ops| ==> EventId(ops[i]) != EventId(ops[j]))
    && Sum(FillQuantity, ops) <= desk.order.remaining
  }

  ghost predicate Cancels(order: LiveOrder, ops: seq<Op>) {
    order.state.Cancelled? || order.state.Filled? || exists i :: 0 <= i < |ops| && ops[i].OrderEventOp?
  }

  /** The single outcome of a race, from the sums of its fills alone. */
  function Settled(order: LiveOrder, quantity: real, cost: real): Core
    requires order.filled + quantity >= 0.0
  {
    var filled := order.filled + quantity;
    Core(if order.remaining == quantity then Filled else Cancelled,
         order.total, filled, order.remaining - quantity,
         if filled == 0.0 then None else Some((PriorNotional(order) + cost) / filled),
         order.limitPrice, None)
  }

  lemma FillInRace(desk: Desk, event: FillEvent)
    requires Inv(desk.order) && Racing(desk.order, FillEventOp(event)) && !Recorded(desk.ledger, FillEventOp(event))
    requires event.quantity <= desk.order.remaining && !desk.order.state.Rejected?
    ensures var next := Step(desk, FillEventOp(event));
            && Inv(next.order)
            && next.order.intent == desk.order.intent
            && next.order.total == desk.order.total && next.order.limitPrice == desk.order.limitPrice
            && next.order.filled == desk.order.filled + event.quantity
            && next.order.remaining == desk.order.remaining - event.quantity
            && PriorNotional(next.order) == PriorNotional(desk.order) + event.quantity * event.price
            && !next.order.state.Rejected?
            && (desk.order.state.Cancelled? ==> next.order.state in {Cancelled, Filled})
            && (Dynamic(desk.order) ==> Dynamic(next.order))
            && next.ledger == desk.ledger + [AppliedEvent(BrokerEvent, event.eventId, FillPrint(event))]
  {
    FillStep(desk, event);
    FilledOrderKeepsInv(desk.order, event);
    var newFilled := desk.order.filled + event.quantity;
    var cost := PriorNotional(desk.order) + event.quantity * event.price;
    assert newFilled * (cost / newFilled) == cost;
  }

  lemma CancelInRace(desk: Desk, event: OrderEvent)
    requires Inv(desk.order) && !desk.order.state.Rejected?
    requires Racing(desk.order, OrderEventOp(event)) && !Recorded(desk.ledger, OrderEventOp(event))
    ensures var next := Step(desk, OrderEventOp(event));
            && next.order.state == (if desk.order.state.Filled? then Filled else Cancelled)
            && next.order.pending.None?
            && next.order.total == desk.order.total && next.order.filled == desk.order.filled
            && next.order.remaining == desk.order.remaining && next.order.average == desk.order.average
            && next.order.limitPrice == desk.order.limitPrice
            && next.order.intent == desk.order.intent
            && Inv(next.order)
            && (next.ledger == desk.ledger
                || next.ledger == desk.ledger + [AppliedEvent(BrokerEvent, event.eventId, OrderPrint(event))])
  {
    var t := BrokerTransition(desk.order, event);
    if t.Some? {
      TransitionIsSound(desk.order, event);
      MovedOrderKeepsInv(desk.order, event, t.value);
    }
  }

  lemma StillFresh(ledger: Ledger, more: AppliedEvent, op: Op)
    requires !Recorded(ledger, op) && EventId(op) != more.eventId && more.source.BrokerEvent?
    requires op.FillEventOp? || op.OrderEventOp?
    ensures !Recorded(ledger + [more], op)
  {
    FindAppend(ledger, [more], BrokerEvent, EventId(op));
    assert Find([more], BrokerEvent, EventId(op)).None?;
  }

  /** After one racing step the rest is still a race. */
  lemma RaceContinues(desk: Desk, ops: seq<Op>)
    requires Race(desk, ops) && ops != []
    ensures Race(Step(desk, ops[0]), ops[1..])
    ensures Cancels(desk.order, ops) ==> Cancels(Step(desk, ops[0]).order, ops[1..])
  {
    var next := Step(desk, ops[0]);
    assert Racing(desk.order, ops[0]) && !Recorded(desk.ledger, ops[0]);
    FillsFit(desk.order, ops);
    if ops[0].FillEventOp? {
      FillInRace(desk, ops[0].fillEvent);
    } else {
      CancelInRace(desk, ops[0].orderEvent);
    }
    forall i | 0 <= i < |ops[1..]|
      ensures Racing(next.order, ops[1..][i]) && !Recorded(next.ledger, ops[1..][i])
    {
      assert ops[1..][i] == ops[i + 1];
      assert Racing(desk.order, ops[i + 1]) && !Recorded(desk.ledger, ops[i + 1]);
      if next.ledger != desk.ledger {
        StillFresh(desk.ledger, next.ledger[|desk.ledger|], ops[i + 1]);
      }
    }
  }

  lemma FillsFit(order: LiveOrder, ops: seq<Op>)
    requires forall i :: 0 <= i < |ops| ==> Racing(order, ops[i])
    requires ops != [] && Sum(FillQuantity, ops) <= order.remaining
    ensures Sum(FillQuantity, ops) == FillQuantity(ops[0]) + Sum(FillQuantity, ops[1..])
    ensures Sum(FillQuantity, ops[1..]) >= 0.0
    ensures FillQuantity(ops[0]) <= order.remaining
  {
    forall x | x in ops[1..] ensures FillQuantity(x) >= 0.0 {
      var i :| 0 <= i < |ops[1..]| && ops[1..][i] == x;
      assert Racing(order, ops[i + 1]);
    }
    SumNonnegative(FillQuantity, ops[1..]);
  }

  /** A racing fill moves quantity and cost from the pending sums into the order. */
  lemma SettledAfterFill(order: LiveOrder, next: LiveOrder, quantity: real, cost: real, q: real, c: real)
    requires order.filled + quantity >= 0.0
    requires next.total == order.total && next.limitPrice == order.limitPrice
    requires next.filled == order.filled + q && next.remaining == order.remaining - q
    requires PriorNotional(next) == PriorNotional(order) + c
    ensures Settled(next, quantity - q, cost - c) == Settled(order, quantity, cost)
  {
  }

  lemma SettledAlready(order: LiveOrder)
    requires Inv(order) && order.state in {Cancelled, Filled}
    ensures Settled(order, 0.0, 0.0) == CoreOf(order)
  {
    if order.average.Some? {
      assert order.filled > 0.0;
      AverageBack(order.filled, order.average.value, PriorNotional(order));
    }
  }

  lemma AverageBack(filled: real, average: real, prior: real)
    requires filled > 0.0 && prior == filled * average
    ensures (prior + 0.0) / (filled + 0.0) == average
  {
    QuotientOfProduct(filled, average);
  }

  lemma QuotientOfProduct(a: real, b: real)
    requires a > 0.0
    ensures (a * b) / a == b
  {
  }

  lemma SettledAfterCancel(order: LiveOrder, next: LiveOrder, quantity: real, cost: real)
    requires order.filled + quantity >= 0.0
    requires next.total == order.total && next.limitPrice == order.limitPrice
    requires next.filled == order.filled && next.remaining == order.remaining && next.average == order.average
    ensures Settled(next, quantity, cost) == Settled(order, quantity, cost)
  {
    assert PriorNotional(next) == PriorNotional(order);
  }

  lemma RaceStepKeepsOutcome(desk: Desk, ops: seq<Op>)
    requires Race(desk, ops) && ops != []
    requires desk.order.filled + Sum(FillQuantity, ops) >= 0.0
    ensures var next := Step(desk, ops[0]).order;
            && next.filled + Sum(FillQuantity, ops[1..]) >= 0.0
            && Settled(next, Sum(FillQuantity, ops[1..]), Sum(FillCost, ops[1..]))
               == Settled(desk.order, Sum(FillQuantity, ops), Sum(FillCost, ops))
  {
    FillsFit(desk.order, ops);
    assert Racing(desk.order, ops[0]) && !Recorded(desk.ledger, ops[0]);
    RacingStep(desk, ops[0], Step(desk, ops[0]).order, Sum(FillQuantity, ops), Sum(FillCost, ops));
  }

  lemma RacingStep(desk: Desk, op: Op, next: LiveOrder, quantity: real, cost: real)
    requires Inv(desk.order) && Racing(desk.order, op) && !Recorded(desk.ledger, op)
    requires FillQuantity(op) <= desk.order.remaining && !desk.order.state.Rejected?
    requires desk.order.filled + quantity >= 0.0 && next == Step(desk, op).order
    ensures next.filled + quantity - FillQuantity(op) >= 0.0
    ensures Settled(next, quantity - FillQuantity(op), cost - FillCost(op)) == Settled(desk.order, quantity, cost)
  {
    if op.FillEventOp? {
      FillInRace(desk, op.fillEvent);
      SettledAfterFill(desk.order, next, quantity, cost, FillQuantity(op), FillCost(op));
    } else {
      CancelInRace(desk, op.orderEvent);
      SettledAfterCancel(desk.order, next, quantity, cost);
    }
  }

  /** Every race ends in the outcome its sums determine. */
  lemma {:induction false} RaceOutcome(desk: Desk, ops: seq<Op>)
    requires Race(desk, ops) && Cancels(desk.order, ops) && ValidOps(ops)
    requires desk.order.filled + Sum(FillQuantity, ops) >= 0.0
    ensures CoreOf(Run(desk, ops).order) == Settled(desk.order, Sum(FillQuantity, ops), Sum(FillCost, ops))
    decreases |ops|
  {
    if ops == [] {
      SettledAlready(desk.order);
    } else {
      RaceContinues(desk, ops);
      RaceStepKeepsOutcome(desk, ops);
      RaceOutcome(Step(desk, ops[0]), ops[1..]);
    }
  }

  /** Confluence: two delivery orders of one race end in the same core. */
  lemma RaceIsConfluent(desk: Desk, ops: seq<Op>, other: seq<Op>)
    requires Race(desk, ops) && Cancels(desk.order, ops) && ValidOps(ops)
    requires multiset(other) == multiset(ops)
    ensures ValidOps(other)
    ensures CoreOf(Run(desk, other).order) == CoreOf(Run(desk, ops).order)
  {
    PermutedRace(desk, ops, other);
    SumPermutation(FillQuantity, ops, other);
    SumPermutation(FillCost, ops, other);
    if ops != [] {
      FillsFit(desk.order, ops);
      assert Racing(desk.order, ops[0]);
    }
    RaceOutcome(desk, ops);
    RaceOutcome(desk, other);
  }

  lemma PermutedRace(desk: Desk, ops: seq<Op>, other: seq<Op>)
    requires Race(desk, ops) && multiset(other) == multiset(ops)
    ensures Race(desk, other) && ValidOps(other)
    ensures Cancels(desk.order, ops) ==> Cancels(desk.order, other)
  {
    SumPermutation(FillQuantity, ops, other);
    forall i | 0 <= i < |other|
      ensures Racing(desk.order, other[i]) && !Recorded(desk.ledger, other[i])
    {
      assert other[i] in multiset(ops);
      var k :| 0 <= k < |ops| && ops[k] == other[i];
    }
    forall i, j | 0 <= i < j < |other|
      ensures EventId(other[i]) != EventId(other[j])
    {
      if EventId(other[i]) == EventId(other[j]) {
        DistinctStaysDistinct(ops, other, i, j);
      }
    }
    if exists i :: 0 <= i < |ops| && ops[i].OrderEventOp? {
      var i :| 0 <= i < |ops| && ops[i].OrderEventOp?;
      assert ops[i] in multiset(other);
    }
  }

  lemma DistinctStaysDistinct(ops: seq<Op>, other: seq<Op>, i: nat, j: nat)
    requires multiset(other) == multiset(ops) && i < j < |other|
    requires forall a, b :: 0 <= a < b < |ops| ==> EventId(ops[a]) != EventId(ops[b])
    ensures EventId(other[i]) != EventId(other[j])
  {
    assert other[i] in multiset(ops) && other[j] in multiset(ops);
    var a :| 0 <= a < |ops| && ops[a] == other[i];
    var b :| 0 <= b < |ops| && ops[b] == other[j];
    if a == b {
      CountTwice(other, i, j);
      CountOnce(ops, a);
    }
  }
}
