/**
 * Fills racing a DYNAMIC_CANCELLED event, which an order honours only in some
 * states: when every delivery order ends in one outcome, and when not.
 */
module DynamicCancel {
  import opened Wrappers
  import opened LiveContracts
  import opened LiveStateMachine
  import opened LiveOrderSafety
  import opened LiveOrderRuns
  import opened CancelRace
  import opened Sums

  ghost predicate AllFills(ops: seq<Op>) {
    forall i :: 0 <= i < |ops| ==> ops[i].FillEventOp?
  }

  /** Fresh confirmed fills that fit, and one fresh confirmed dynamic cancel. */
  ghost predicate DynamicRace(desk: Desk, fills: seq<Op>, cancel: OrderEvent) {
    && Race(desk, fills) && AllFills(fills) && ValidOps(fills)
    && cancel.Valid() && cancel.eventType.DynamicCancelled?
    && ConfirmedFor(desk.order, cancel.correlation, cancel.accountId, cancel.instrumentId)
    && !Recorded(desk.ledger, OrderEventOp(cancel))
    && forall i :: 0 <= i < |fills| ==> EventId(fills[i]) != cancel.eventId
  }

  /** Every delivery order ends in the same core. */
  ghost predicate OrdersAgree(desk: Desk, ops: seq<Op>)
    requires Inv(desk.order) && ValidOps(ops)
  {
    forall other :: multiset(other) == multiset(ops) ==>
      ValidOps(other) && CoreOf(Run(desk, other).order) == CoreOf(Run(desk, ops).order)
  }

  /** A state in which no acceptance and no fill has been applied since the order was last sent. */
  predicate Unsettled(order: LiveOrder) {
    order.state in {Created, Validated, Submitting, SubmissionUnknown}
  }

  lemma DynamicCancelRefused(desk: Desk, cancel: OrderEvent)
    requires Inv(desk.order) && desk.order.state !in {Accepted, PartiallyFilled, CancelPending, Cancelled}
    requires cancel.Valid() && cancel.eventType.DynamicCancelled?
    ensures Step(desk, OrderEventOp(cancel)) == desk
  {
    assert desk.fills + [] == desk.fills;
  }

  // ---- Fills alone ------------------------------------------------------------------

  /** What fills alone leave behind, from their sums. */
  function Filling(order: LiveOrder, quantity: real, cost: real): Core {
    var (state, pending) := FillState(order, order.remaining - quantity);
    Core(state, order.total, order.filled + quantity, order.remaining - quantity,
         if order.filled + quantity == 0.0 then None else Some((PriorNotional(order) + cost) / (order.filled + quantity)),
         order.limitPrice, pending)
  }

  /** A fill of this quantity and cost that leaves room for more has moved the order from one to the other. */
  ghost predicate FilledOn(order: LiveOrder, next: LiveOrder, q: real, c: real) {
    && next.total == order.total && next.limitPrice == order.limitPrice
    && next.filled == order.filled + q && next.remaining == order.remaining - q
    && PriorNotional(next) == PriorNotional(order) + c
    && (next.remaining > 0.0 ==> forall r: real :: FillState(next, r) == FillState(order, r))
  }

  lemma OneFill(desk: Desk, event: FillEvent, q: real, c: real)
    requires Inv(desk.order) && Racing(desk.order, FillEventOp(event)) && !Recorded(desk.ledger, FillEventOp(event))
    requires event.quantity <= desk.order.remaining && !desk.order.state.Rejected?
    requires q == event.quantity && c == event.quantity * event.price
    ensures var next := Step(desk, FillEventOp(event)).order;
            CoreOf(next) == Filling(desk.order, q, c) && FilledOn(desk.order, next, q, c)
  {
    FillInRace(desk, event);
    FillStep(desk, event);
  }

  lemma FillingTwice(order: LiveOrder, next: LiveOrder, quantity: real, cost: real, q: real, c: real)
    requires FilledOn(order, next, q, c) && next.remaining > 0.0
    ensures Filling(next, quantity - q, cost - c) == Filling(order, quantity, cost)
  {
  }

  /** The first of several racing fills applies, whatever follows it. */
  lemma FirstApplies(desk: Desk, fills: seq<Op>)
    requires Race(desk, fills) && AllFills(fills) && fills != []
    ensures fills[0].FillEventOp? && Racing(desk.order, fills[0]) && !Recorded(desk.ledger, fills[0])
    ensures FillQuantity(fills[0]) <= desk.order.remaining && !desk.order.state.Rejected?
    ensures Sum(FillQuantity, fills[1..]) == Sum(FillQuantity, fills) - FillQuantity(fills[0])
  {
    assert Racing(desk.order, fills[0]) && !Recorded(desk.ledger, fills[0]);
    FillsFit(desk.order, fills);
  }

  lemma FirstFill(desk: Desk, fills: seq<Op>)
    requires Race(desk, fills) && AllFills(fills) && fills != [] && fills[0].Valid()
    ensures var next, q, c := Step(desk, fills[0]).order, FillQuantity(fills[0]), FillCost(fills[0]);
            CoreOf(next) == Filling(desk.order, q, c) && FilledOn(desk.order, next, q, c)
  {
    FirstApplies(desk, fills);
    OneFill(desk, fills[0].fillEvent, FillQuantity(fills[0]), FillCost(fills[0]));
  }

  lemma SumsOfFirst(fills: seq<Op>)
    requires fills != []
    ensures Sum(FillQuantity, fills) == FillQuantity(fills[0]) + Sum(FillQuantity, fills[1..])
    ensures Sum(FillCost, fills) == FillCost(fills[0]) + Sum(FillCost, fills[1..])
    ensures fills[1..] == [] ==> Sum(FillQuantity, fills[1..]) == Sum(FillCost, fills[1..]) == 0.0
  {
  }

  lemma RunFirst(desk: Desk, ops: seq<Op>)
    requires Inv(desk.order) && ValidOps(ops) && ops != []
    ensures Inv(Step(desk, ops[0]).order) && ValidOps(ops[1..])
    ensures Run(desk, ops) == Run(Step(desk, ops[0]), ops[1..])
    ensures |ops| == 1 ==> Run(desk, ops) == Step(desk, ops[0])
  {
    StepIsSafe(desk, ops[0]);
  }

  lemma {:induction false} FillsOutcome(desk: Desk, fills: seq<Op>)
    requires Race(desk, fills) && AllFills(fills) && ValidOps(fills) && fills != []
    ensures CoreOf(Run(desk, fills).order) == Filling(desk.order, Sum(FillQuantity, fills), Sum(FillCost, fills))
    decreases |fills|
  {
    FirstFill(desk, fills);
    RunFirst(desk, fills);
    SumsOfFirst(fills);
    if |fills| > 1 {
      RaceContinues(desk, fills);
      FillsOutcome(Step(desk, fills[0]), fills[1..]);
      SomethingLeft(Step(desk, fills[0]), fills[1..]);
      FillingTwice(desk.order, Step(desk, fills[0]).order, Sum(FillQuantity, fills), Sum(FillCost, fills),
                   FillQuantity(fills[0]), FillCost(fills[0]));
    }
  }

  lemma SomethingLeft(desk: Desk, fills: seq<Op>)
    requires Race(desk, fills) && AllFills(fills) && fills != []
    ensures 0.0 < Sum(FillQuantity, fills) <= desk.order.remaining
  {
    assert Racing(desk.order, fills[0]);
    FillsFit(desk.order, fills);
  }

  // ---- Fills before the cancel ----------------------------------------------------------

  lemma {:induction false} RunConcat(desk: Desk, ops: seq<Op>, more: seq<Op>)
    requires Inv(desk.order) && ValidOps(ops) && ValidOps(more) && ValidOps(ops + more)
    ensures Run(desk, ops + more) == Run(Run(desk, ops), more)
    decreases |ops|
  {
    if ops == [] {
      assert ops + more == more;
    } else {
      StepIsSafe(desk, ops[0]);
      assert (ops + more)[1..] == ops[1..] + more;
      RunConcat(Step(desk, ops[0]), ops[1..], more);
    }
  }

  /** After some of the fills the others still race, towards the same outcome, and the cancel is still fresh. */
  lemma {:induction false} RaceAfterFills(desk: Desk, fills: seq<Op>, more: seq<Op>, cancel: OrderEvent)
    requires DynamicRace(desk, fills + more, cancel) && AllFills(fills) && ValidOps(fills)
    ensures var mid := Run(desk, fills);
            && DynamicRace(mid, more, cancel)
            && mid.order.filled + Sum(FillQuantity, more) == desk.order.filled + Sum(FillQuantity, fills + more) >= 0.0
            && Settled(mid.order, Sum(FillQuantity, more), Sum(FillCost, more))
               == Settled(desk.order, Sum(FillQuantity, fills + more), Sum(FillCost, fills + more))
    decreases |fills|
  {
    var all := fills + more;
    if fills == [] {
      assert all == more;
      if more != [] { SomethingLeft(desk, more); }
    } else {
      assert all[1..] == fills[1..] + more && all[0] == fills[0];
      CancelStaysFresh(desk, all, cancel);
      SomethingLeft(desk, all);
      RaceStepKeepsOutcome(desk, all);
      OneFillQuantity(desk, all);
      RaceAfterFills(Step(desk, fills[0]), fills[1..], more, cancel);
    }
  }

  lemma OneFillQuantity(desk: Desk, fills: seq<Op>)
    requires Race(desk, fills) && AllFills(fills) && fills != []
    ensures fills[0].Valid()
    ensures Step(desk, fills[0]).order.filled + Sum(FillQuantity, fills[1..]) == desk.order.filled + Sum(FillQuantity, fills)
  {
    assert Racing(desk.order, fills[0]) && !Recorded(desk.ledger, fills[0]);
    FillsFit(desk.order, fills);
    FillInRace(desk, fills[0].fillEvent);
  }

  lemma CancelStaysFresh(desk: Desk, fills: seq<Op>, cancel: OrderEvent)
    requires DynamicRace(desk, fills, cancel) && fills != []
    ensures DynamicRace(Step(desk, fills[0]), fills[1..], cancel)
  {
    RaceContinues(desk, fills);
    assert Racing(desk.order, fills[0]) && !Recorded(desk.ledger, fills[0]);
    FillsFit(desk.order, fills);
    FillInRace(desk, fills[0].fillEvent);
    var next := Step(desk, fills[0]);
    StillFresh(desk.ledger, next.ledger[|desk.ledger|], OrderEventOp(cancel));
  }

  /** An order that honours dynamic cancels settles whatever comes after the cancel. */
  lemma CancelThenFills(desk: Desk, fills: seq<Op>, cancel: OrderEvent)
    requires DynamicRace(desk, fills, cancel) && Dynamic(desk.order)
    requires desk.order.filled + Sum(FillQuantity, fills) >= 0.0
    ensures ValidOps([OrderEventOp(cancel)] + fills)
    ensures CoreOf(Run(desk, [OrderEventOp(cancel)] + fills).order)
            == Settled(desk.order, Sum(FillQuantity, fills), Sum(FillCost, fills))
  {
    var ops := [OrderEventOp(cancel)] + fills;
    assert ops[1..] == fills && ops[0].OrderEventOp?;
    assert Racing(desk.order, ops[0]);
    RaceOutcome(desk, ops);
  }

  /** One delivery order: the fills around the cancel. */
  lemma SplitAtCancel(fills: seq<Op>, cancel: OrderEvent, other: seq<Op>) returns (before: seq<Op>, after: seq<Op>)
    requires multiset(other) == multiset(fills + [OrderEventOp(cancel)])
    ensures other == before + ([OrderEventOp(cancel)] + after)
    ensures multiset(before + after) == multiset(fills)
  {
    assert OrderEventOp(cancel) in multiset(other);
    var i :| 0 <= i < |other| && other[i] == OrderEventOp(cancel);
    before, after := other[..i], other[i + 1..];
    assert other == before + ([OrderEventOp(cancel)] + after);
    ghost var one := multiset{OrderEventOp(cancel)};
    assert multiset(other) == multiset(before + after) + one && multiset(other) == multiset(fills) + one;
    assert multiset(before + after) == (multiset(fills) + one) - one;
  }

  lemma ReorderedRace(desk: Desk, fills: seq<Op>, other: seq<Op>, cancel: OrderEvent)
    requires DynamicRace(desk, fills, cancel) && multiset(other) == multiset(fills)
    ensures DynamicRace(desk, other, cancel)
    ensures Sum(FillQuantity, other) == Sum(FillQuantity, fills) && Sum(FillCost, other) == Sum(FillCost, fills)
    ensures other == [] <==> fills == []
  {
    PermutedRace(desk, fills, other);
    SumPermutation(FillQuantity, fills, other);
    SumPermutation(FillCost, fills, other);
    forall i | 0 <= i < |other| ensures other[i].FillEventOp? && EventId(other[i]) != cancel.eventId {
      assert other[i] in multiset(fills);
    }
    assert |multiset(other)| == |other| && |multiset(fills)| == |fills|;
  }

  // ---- One delivery order ------------------------------------------------------------------

  /** Where a delivery order with these fills before the cancel ends, for an order that does not honour the cancel yet. */
  function Ending(order: LiveOrder, fillsFirst: bool, quantity: real, cost: real): Core
    requires order.filled + quantity >= 0.0
  {
    if fillsFirst && !order.state.Reconciling? then Settled(order, quantity, cost)
    else if quantity == 0.0 then CoreOf(order)
    else Filling(order, quantity, cost)
  }

  lemma DeliveryEnds(desk: Desk, before: seq<Op>, after: seq<Op>, cancel: OrderEvent)
    requires DynamicRace(desk, before + after, cancel) && !Dynamic(desk.order)
    ensures desk.order.filled + Sum(FillQuantity, before + after) >= 0.0
    ensures ValidOps(before + ([OrderEventOp(cancel)] + after))
    ensures CoreOf(Run(desk, before + ([OrderEventOp(cancel)] + after)).order)
            == Ending(desk.order, before != [], Sum(FillQuantity, before + after), Sum(FillCost, before + after))
  {
    var rest := [OrderEventOp(cancel)] + after;
    Halves(before, after);
    RaceAfterFills(desk, before, after, cancel);
    RunConcat(desk, before, rest);
    if desk.order.state.Reconciling? || before == [] {
      RefusedInBetween(desk, before, after, cancel);
    } else {
      FirstHalfRaces(desk, before, after);
      FillsOutcome(desk, before);
      CancelThenFills(Run(desk, before), after, cancel);
    }
  }

  lemma Halves(before: seq<Op>, after: seq<Op>)
    ensures AllFills(before + after) ==> AllFills(before) && AllFills(after)
    ensures ValidOps(before + after) ==> ValidOps(before) && ValidOps(after)
  {
    assert forall i :: 0 <= i < |before| ==> (before + after)[i] == before[i];
    assert forall i :: 0 <= i < |after| ==> (before + after)[|before| + i] == after[i];
  }

  lemma FirstHalfRaces(desk: Desk, before: seq<Op>, after: seq<Op>)
    requires Race(desk, before + after) && AllFills(before + after)
    ensures Race(desk, before)
  {
    assert forall i :: 0 <= i < |before| ==> (before + after)[i] == before[i];
    forall x | x in after ensures FillQuantity(x) >= 0.0 {
      var i :| 0 <= i < |after| && after[i] == x;
      assert (before + after)[|before| + i] == x;
      assert Racing(desk.order, (before + after)[|before| + i]);
    }
    SumNonnegative(FillQuantity, after);
    SumConcat(FillQuantity, before, after);
  }

  /** A cancel that finds the order unready drops out, and the fills are all that counts. */
  lemma RefusedInBetween(desk: Desk, before: seq<Op>, after: seq<Op>, cancel: OrderEvent)
    requires DynamicRace(desk, before + after, cancel) && !Dynamic(desk.order) && (desk.order.state.Reconciling? || before == [])
    requires ValidOps(before) && ValidOps(after) && AllFills(before) && ValidOps([OrderEventOp(cancel)] + after)
    ensures Inv(Run(desk, before).order)
    ensures CoreOf(Run(Run(desk, before), [OrderEventOp(cancel)] + after).order)
            == if before + after == [] then CoreOf(desk.order)
               else Filling(desk.order, Sum(FillQuantity, before + after), Sum(FillCost, before + after))
    ensures before + after != [] <==> Sum(FillQuantity, before + after) != 0.0
  {
    var mid, rest := Run(desk, before), [OrderEventOp(cancel)] + after;
    if before != [] {
      FirstHalfRaces(desk, before, after);
      FillsOutcome(desk, before);
    }
    DynamicCancelRefused(mid, cancel);
    assert rest[1..] == after && Run(mid, rest) == Run(mid, after);
    RunConcat(desk, before, after);
    if before + after != [] {
      SomethingLeft(desk, before + after);
      FillsOutcome(desk, before + after);
    }
  }

  // ---- All delivery orders --------------------------------------------------------------------

  lemma HonouredAgree(desk: Desk, fills: seq<Op>, cancel: OrderEvent)
    requires DynamicRace(desk, fills, cancel) && Dynamic(desk.order) && ValidOps(fills + [OrderEventOp(cancel)])
    ensures OrdersAgree(desk, fills + [OrderEventOp(cancel)])
  {
    var ops := fills + [OrderEventOp(cancel)];
    SumConcat(FillQuantity, fills, [OrderEventOp(cancel)]);
    assert ops[|fills|].OrderEventOp?;
    assert Race(desk, ops);
    forall other | multiset(other) == multiset(ops)
      ensures ValidOps(other) && CoreOf(Run(desk, other).order) == CoreOf(Run(desk, ops).order)
    {
      RaceIsConfluent(desk, ops, other);
    }
  }

  /** Where any delivery order ends. */
  lemma AnyDeliveryEnds(desk: Desk, fills: seq<Op>, cancel: OrderEvent, other: seq<Op>) returns (fillsFirst: bool)
    requires DynamicRace(desk, fills, cancel) && !Dynamic(desk.order)
    requires multiset(other) == multiset(fills + [OrderEventOp(cancel)])
    ensures ValidOps(other) && desk.order.filled + Sum(FillQuantity, fills) >= 0.0
    ensures fillsFirst ==> fills != []
    ensures CoreOf(Run(desk, other).order)
            == Ending(desk.order, fillsFirst, Sum(FillQuantity, fills), Sum(FillCost, fills))
  {
    var before, after := SplitAtCancel(fills, cancel, other);
    ReorderedRace(desk, fills, before + after, cancel);
    DeliveryEnds(desk, before, after, cancel);
    fillsFirst := before != [];
  }

  /** Which endings coincide. */
  lemma EndingsAgree(order: LiveOrder, quantity: real, cost: real)
    requires Inv(order) && !Dynamic(order) && !order.state.Rejected? && 0.0 < quantity <= order.remaining
    ensures Ending(order, true, quantity, cost) == Ending(order, false, quantity, cost)
            <==> order.state.Reconciling? || quantity == order.remaining
  {
  }

  /**
   * Fills that fit and one DYNAMIC_CANCELLED event end in one outcome for all
   * delivery orders if and only if there is no fill, the fills complete the
   * order, or the order is not in one of the four states before an answer.
   */
  lemma AgreeExactly(desk: Desk, fills: seq<Op>, cancel: OrderEvent)
    requires DynamicRace(desk, fills, cancel)
    ensures ValidOps(fills + [OrderEventOp(cancel)])
    ensures OrdersAgree(desk, fills + [OrderEventOp(cancel)])
            <==> (!Unsettled(desk.order) || fills == [] || Sum(FillQuantity, fills) == desk.order.remaining)
  {
    if Dynamic(desk.order) {
      HonouredAgree(desk, fills, cancel);
    } else {
      UnreadyAgree(desk, fills, cancel);
    }
  }

  lemma UnreadyAgree(desk: Desk, fills: seq<Op>, cancel: OrderEvent)
    requires DynamicRace(desk, fills, cancel) && !Dynamic(desk.order) && ValidOps(fills + [OrderEventOp(cancel)])
    ensures OrdersAgree(desk, fills + [OrderEventOp(cancel)])
            <==> (desk.order.state.Reconciling? || fills == [] || Sum(FillQuantity, fills) == desk.order.remaining)
  {
    var last := fills + [OrderEventOp(cancel)];
    if desk.order.state.Reconciling? || fills == [] || Sum(FillQuantity, fills) == desk.order.remaining {
      EndsAlike(desk, fills, cancel, last);
      forall other | multiset(other) == multiset(last)
        ensures ValidOps(other) && CoreOf(Run(desk, other).order) == CoreOf(Run(desk, last).order)
      {
        EndsAlike(desk, fills, cancel, other);
      }
    } else {
      var first := CancelFirstDiffers(desk, fills, cancel);
    }
  }

  lemma EndsAlike(desk: Desk, fills: seq<Op>, cancel: OrderEvent, other: seq<Op>)
    requires DynamicRace(desk, fills, cancel) && !Dynamic(desk.order)
    requires multiset(other) == multiset(fills + [OrderEventOp(cancel)])
    requires desk.order.state.Reconciling? || fills == [] || Sum(FillQuantity, fills) == desk.order.remaining
    ensures ValidOps(other) && desk.order.filled + Sum(FillQuantity, fills) >= 0.0
    ensures CoreOf(Run(desk, other).order) == Ending(desk.order, false, Sum(FillQuantity, fills), Sum(FillCost, fills))
  {
    var fillsFirst := AnyDeliveryEnds(desk, fills, cancel, other);
    if fillsFirst {
      SomethingLeft(desk, fills);
      EndingsAgree(desk.order, Sum(FillQuantity, fills), Sum(FillCost, fills));
    }
  }

  lemma EndingStates(order: LiveOrder, quantity: real, cost: real)
    requires Inv(order) && Unsettled(order) && 0.0 < quantity < order.remaining
    ensures Ending(order, true, quantity, cost).state.Cancelled?
    ensures Ending(order, false, quantity, cost).state.PartiallyFilled?
  {
  }

  /** Too early, the cancel leaves the order working; after the fills it ends it. */
  lemma CancelFirstDiffers(desk: Desk, fills: seq<Op>, cancel: OrderEvent) returns (first: seq<Op>)
    requires DynamicRace(desk, fills, cancel) && !Dynamic(desk.order) && ValidOps(fills + [OrderEventOp(cancel)])
    requires !desk.order.state.Reconciling? && fills != [] && Sum(FillQuantity, fills) != desk.order.remaining
    ensures multiset(first) == multiset(fills + [OrderEventOp(cancel)])
    ensures ValidOps(first) && first == [OrderEventOp(cancel)] + fills
    ensures Run(desk, first).order.state.PartiallyFilled? && Run(desk, fills + [OrderEventOp(cancel)]).order.state.Cancelled?
  {
    first := [OrderEventOp(cancel)] + fills;
    SomethingLeft(desk, fills);
    EndingStates(desk.order, Sum(FillQuantity, fills), Sum(FillCost, fills));
    Neighbours(fills, OrderEventOp(cancel));
    DeliveryEnds(desk, fills, [], cancel);
    DeliveryEnds(desk, [], fills, cancel);
  }

  lemma Neighbours(fills: seq<Op>, op: Op)
    ensures fills + [] == fills && [] + fills == fills && [] + ([op] + fills) == [op] + fills && [op] + [] == [op]
    ensures multiset([op] + fills) == multiset(fills + [op])
  {
  }

  /** A created order that has been validated and is being submitted. */
  lemma SubmittedOrder(intent: Intent, command: Id) returns (order: LiveOrder)
    requires intent.Valid()
    ensures Inv(order) && order.state.Submitting? && order.remaining == intent.quantity && order.intent == intent
    ensures AdvanceLocal(CreateLiveOrder(intent), Validated, intent.createdAt, None) == Returned(ValidatedOrder(intent))
    ensures AdvanceLocal(ValidatedOrder(intent), Submitting, intent.createdAt, Some(New(command, intent, intent.createdAt)))
            == Returned(order)
  {
    CreatedOrderHoldsInv(intent);
    order := ValidatedOrder(intent).(state := Submitting, version := 3, pending := Some(New(command, intent, intent.createdAt)));
  }

  function ValidatedOrder(intent: Intent): LiveOrder {
    CreateLiveOrder(intent).(state := Validated, version := 2)
  }

  function ConfirmedCorrelation(intent: Intent, fillId: Id): Correlation {
    Correlation(Confirmed, Some(intent.clientOrderId), Some(fillId), None, None, None, None, None, None, intent.createdAt)
  }

  function HalfFill(intent: Intent, eventId: Id): FillEvent {
    FillEvent(eventId, intent.accountId, intent.instrumentId, intent.side, intent.quantity / 2.0, 1.0, intent.createdAt,
              ConfirmedCorrelation(intent, eventId), None)
  }

  function DynamicEvent(intent: Intent, eventId: Id): OrderEvent {
    OrderEvent(eventId, intent.accountId, intent.instrumentId, DynamicCancelled, intent.createdAt,
               ConfirmedCorrelation(intent, eventId), None, None, None, None)
  }

  lemma SingleFillRace(desk: Desk, fill: FillEvent, cancel: OrderEvent)
    requires Inv(desk.order) && !desk.order.state.Rejected? && desk.ledger == [] && fill.eventId != cancel.eventId
    requires fill.Valid() && Racing(desk.order, FillEventOp(fill)) && fill.quantity <= desk.order.remaining
    requires cancel.Valid() && cancel.eventType.DynamicCancelled?
    requires ConfirmedFor(desk.order, cancel.correlation, cancel.accountId, cancel.instrumentId)
    ensures DynamicRace(desk, [FillEventOp(fill)], cancel) && Sum(FillQuantity, [FillEventOp(fill)]) == fill.quantity
  {
    var fills := [FillEventOp(fill)];
    assert Sum(FillQuantity, fills) == fill.quantity by { assert fills[1..] == []; }
  }

  /** Every order disagrees while it is being submitted: half of it filled, and a dynamic cancel. */
  lemma SubmissionDisagrees(intent: Intent, command: Id, fillId: Id, cancelId: Id) returns (desk: Desk)
    requires intent.Valid() && fillId != cancelId
    ensures desk.order.state.Submitting? && desk.order.intent == intent
    ensures DynamicRace(desk, [FillEventOp(HalfFill(intent, fillId))], DynamicEvent(intent, cancelId))
    ensures ValidOps([FillEventOp(HalfFill(intent, fillId))] + [OrderEventOp(DynamicEvent(intent, cancelId))])
    ensures !OrdersAgree(desk, [FillEventOp(HalfFill(intent, fillId))] + [OrderEventOp(DynamicEvent(intent, cancelId))])
  {
    var order := SubmittedOrder(intent, command);
    desk := Desk(order, [], []);
    SingleFillRace(desk, HalfFill(intent, fillId), DynamicEvent(intent, cancelId));
    AgreeExactly(desk, [FillEventOp(HalfFill(intent, fillId))], DynamicEvent(intent, cancelId));
  }
}
